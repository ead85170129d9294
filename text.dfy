/** The few JavaScript string operations the trace engine relies on
    (String.prototype.split, Array.prototype.join, trim, toLowerCase,
    String(number)), and the JavaScript "undefined" and "throws" outcomes,
    stated over `string` = `seq<char>`. */
module Text {

  /** A JavaScript value that may be `undefined`. */
  datatype Option<T> = None | Some(value: T)

  /** The errors the engine can raise at run time. */
  datatype JsError =
    | NotAFunction(callee: string)        // e.g. `value.split` on an array
    | ReadOfUndefined(property: string)   // e.g. `undefined.map`
    | SetOnUndefined(property: string)    // e.g. `postData.mimeType = …` with postData undefined
    | UnhandledEvent(event: string)       // e.g. an `error` event no listener was attached for

  /** The value of an expression that may throw. */
  datatype Result<T> = Ok(value: T) | Threw(error: JsError)

  /** The outcome of an event handler: it ran to the end, or it threw part way. */
  datatype Outcome = Completed | Failed(error: JsError)

  // ---------------------------------------------------------------------------
  // split / join

  /** `s.split(sep)` for a non-empty separator: leftmost, non-overlapping
      matches, scanning from the left; `cur` is the piece being collected. */
  function SplitFrom(s: string, sep: string, cur: string): (r: seq<string>)
    requires sep != []
    ensures |r| >= 1
    decreases |s|
  {
    if s == [] then [cur]
    else if sep <= s then [cur] + SplitFrom(s[|sep|..], sep, [])
    else SplitFrom(s[1..], sep, cur + [s[0]])
  }

  /** `s.split(sep)`; like JavaScript, "" splits into [""]. */
  function Split(s: string, sep: string): (r: seq<string>)
    requires sep != []
    ensures |r| >= 1
  {
    SplitFrom(s, sep, [])
  }

  /** `parts.join(sep)`; [] joins to "". */
  function Join(parts: seq<string>, sep: string): string
  {
    if |parts| == 0 then []
    else if |parts| == 1 then parts[0]
    else parts[0] + sep + Join(parts[1..], sep)
  }

  /** Sum of the lengths of `parts`: the length of `parts.join("")`. */
  function TotalLength(parts: seq<string>): nat
  {
    if parts == [] then 0 else |parts[0]| + TotalLength(parts[1..])
  }

  /** The length of a joined list: every part plus one separator between
      each neighbouring pair. */
  lemma {:induction false} JoinLength(parts: seq<string>, sep: string)
    ensures |Join(parts, sep)| ==
            TotalLength(parts) + (if parts == [] then 0 else (|parts| - 1) * |sep|)
    decreases |parts|
  {
    if |parts| > 1 {
      JoinLength(parts[1..], sep);
    }
  }

  /** A piece without the separator's first character is carried over whole. */
  lemma {:induction false} SplitFromSkips(p: string, rest: string, sep: string, cur: string)
    requires sep != [] && sep[0] !in p
    ensures SplitFrom(p + rest, sep, cur) == SplitFrom(rest, sep, cur + p)
    decreases |p|
  {
    if p != [] {
      var s := p + rest;
      assert s != [] && s[0] == p[0] && s[1..] == p[1..] + rest;
      assert !(sep <= s) by { assert s[0] != sep[0]; }
      assert SplitFrom(s, sep, cur) == SplitFrom(s[1..], sep, cur + [s[0]]);
      assert sep[0] !in p[1..] by { forall c | c in p[1..] ensures c in p { } }
      SplitFromSkips(p[1..], rest, sep, cur + [p[0]]);
      assert cur + [p[0]] + p[1..] == cur + p;
    } else {
      assert p + rest == rest && cur + p == cur;
    }
  }

  /** Splitting undoes joining, provided no part contains the separator's
      first character (so that no match can start inside a part). */
  lemma {:induction false} SplitJoin(parts: seq<string>, sep: string)
    requires sep != [] && |parts| >= 1
    requires forall i :: 0 <= i < |parts| ==> sep[0] !in parts[i]
    ensures Split(Join(parts, sep), sep) == parts
    decreases |parts|
  {
    SplitJoinFrom(parts, sep);
  }

  lemma {:induction false} SplitJoinFrom(parts: seq<string>, sep: string)
    requires sep != [] && |parts| >= 1
    requires forall i :: 0 <= i < |parts| ==> sep[0] !in parts[i]
    ensures SplitFrom(Join(parts, sep), sep, []) == parts
    decreases |parts|
  {
    if |parts| == 1 {
      SplitFromSkips(parts[0], [], sep, []);
      assert parts[0] + [] == parts[0];
      assert [] + parts[0] == parts[0];
    } else {
      var rest := Join(parts[1..], sep);
      assert Join(parts, sep) == parts[0] + (sep + rest);
      SplitFromSkips(parts[0], sep + rest, sep, []);
      assert [] + parts[0] == parts[0];
      assert sep <= sep + rest;
      assert (sep + rest)[|sep|..] == rest;
      assert sep + rest != [];
      assert SplitFrom(sep + rest, sep, parts[0]) == [parts[0]] + SplitFrom(rest, sep, []);
      SplitJoinFrom(parts[1..], sep);
      assert parts == [parts[0]] + parts[1..];
    }
  }

  /** The first piece of a split: it starts with the piece collected so
      far and runs to the end of the text exactly when nothing is split off. */
  lemma {:induction false} FirstPiece(s: string, sep: string, cur: string)
    requires sep != []
    ensures cur <= SplitFrom(s, sep, cur)[0] <= cur + s
    ensures SplitFrom(s, sep, cur)[0] == cur + s <==> |SplitFrom(s, sep, cur)| == 1
    decreases |s|
  {
    if s == [] {
      assert cur + s == cur;
    } else if sep <= s {
      assert |cur + s| > |cur|;
    } else {
      FirstPiece(s[1..], sep, cur + [s[0]]);
      assert cur + [s[0]] + s[1..] == cur + s;
      assert cur <= cur + [s[0]];
    }
  }

  /** Splitting on a one-character separator leaves that character in no
      piece. */
  lemma {:induction false} SplitOnCharPieces(s: string, c: char, cur: string)
    requires c !in cur
    ensures forall i :: 0 <= i < |SplitFrom(s, [c], cur)| ==> c !in SplitFrom(s, [c], cur)[i]
    decreases |s|
  {
    if s == [] {
    } else if [c] <= s {
      SplitOnCharPieces(s[1..], c, []);
      assert SplitFrom(s, [c], cur) == [cur] + SplitFrom(s[1..], [c], []);
    } else {
      assert c !in cur + [s[0]];
      SplitOnCharPieces(s[1..], c, cur + [s[0]]);
    }
  }

  /** Splitting on a one-character separator gives more than one piece
      exactly when the text holds that character. */
  lemma {:induction false} SplitOnCharCount(s: string, c: char, cur: string)
    ensures |SplitFrom(s, [c], cur)| == 1 <==> c !in s
    decreases |s|
  {
    if s == [] {
    } else if [c] <= s {
      assert s[0] == c;
    } else {
      SplitOnCharCount(s[1..], c, cur + [s[0]]);
      assert s == [s[0]] + s[1..];
      assert c in s <==> c in s[1..];
    }
  }

  /** When a text holds a one-character separator, its first two pieces
      joined by the separator begin the text. */
  lemma {:induction false} SplitOnCharPrefix(s: string, c: char, cur: string)
    requires |SplitFrom(s, [c], cur)| >= 2
    ensures SplitFrom(s, [c], cur)[0] + [c] + SplitFrom(s, [c], cur)[1] <= cur + s
    decreases |s|
  {
    if s != [] {
      if [c] <= s {
        SplitAtSeparator(s, c, cur);
      } else {
        assert SplitFrom(s, [c], cur) == SplitFrom(s[1..], [c], cur + [s[0]]);
        SplitOnCharPrefix(s[1..], c, cur + [s[0]]);
        assert cur + [s[0]] + s[1..] == cur + s;
      }
    }
  }

  /** A text that starts with the separator: the piece collected so far,
      the separator and the next piece begin the whole. */
  lemma SplitAtSeparator(s: string, c: char, cur: string)
    requires [c] <= s
    ensures |SplitFrom(s, [c], cur)| >= 2
    ensures SplitFrom(s, [c], cur)[0] + [c] + SplitFrom(s, [c], cur)[1] <= cur + s
  {
    var rest := s[1..];
    var tail := SplitFrom(rest, [c], []);
    SplitFromAtSeparator(s, [c], cur);
    var p := tail[0];
    assert p <= rest by {
      FirstPiece(rest, [c], []);
      assert [] + rest == rest;
    }
    assert s == [c] + rest;
    PrefixExtends([c], p, rest);
    PrefixExtends(cur, [c] + p, s);
    assert cur + ([c] + p) == cur + [c] + p;
  }

  lemma SplitFromAtSeparator(s: string, sep: string, cur: string)
    requires sep != [] && sep <= s
    ensures SplitFrom(s, sep, cur) == [cur] + SplitFrom(s[|sep|..], sep, [])
  {
  }

  lemma PrefixExtends(x: string, p: string, rest: string)
    requires p <= rest
    ensures x + p <= x + rest
  {
    assert (x + rest)[..|x + p|] == x + rest[..|p|];
  }

  /** A leading piece free of the separator's first character is split off
      whole, and the rest is split as usual. */
  lemma SplitCons(p: string, rest: string, sep: string)
    requires sep != [] && sep[0] !in p
    ensures Split(p + sep + rest, sep) == [p] + Split(rest, sep)
  {
    assert p + sep + rest == p + (sep + rest);
    SplitFromSkips(p, sep + rest, sep, []);
    assert [] + p == p;
    assert sep <= sep + rest && (sep + rest)[|sep|..] == rest;
  }

  /** The pieces of a string that does not contain the separator's first
      character: the string itself. */
  lemma SplitPlain(s: string, sep: string)
    requires sep != [] && sep[0] !in s
    ensures Split(s, sep) == [s]
  {
    SplitJoin([s], sep);
  }

  // ---------------------------------------------------------------------------
  // trim / toLowerCase

  /** ECMAScript WhiteSpace and LineTerminator code points: what `trim` removes. */
  predicate IsSpace(c: char)
  {
    c == ' ' || c == '\t' || c == '\n' || c == '\r' || c == '\U{B}' || c == '\U{C}' ||
    c == '\U{A0}' || c == '\U{FEFF}' || c == '\U{1680}' ||
    ('\U{2000}' <= c <= '\U{200A}') || c == '\U{2028}' || c == '\U{2029}' ||
    c == '\U{202F}' || c == '\U{205F}' || c == '\U{3000}'
  }

  function TrimStart(s: string): string
  {
    if s != [] && IsSpace(s[0]) then TrimStart(s[1..]) else s
  }

  function TrimEnd(s: string): string
  {
    if s != [] && IsSpace(s[|s| - 1]) then TrimEnd(s[..|s| - 1]) else s
  }

  /** `s.trim()`. */
  function Trim(s: string): string
  {
    TrimEnd(TrimStart(s))
  }

  /** Trimming a text padded by one leading space. */
  lemma TrimOneSpace(s: string)
    requires s != [] && !IsSpace(s[0]) && !IsSpace(s[|s| - 1])
    ensures Trim(" " + s) == s
  {
    assert (" " + s)[0] == ' ' && (" " + s)[1..] == s;
    assert TrimStart(" " + s) == s;
  }

  function LowerChar(c: char): char
  {
    if 'A' <= c <= 'Z' then (c as int + 32) as char else c
  }

  /** `s.toLowerCase()` on the ASCII letters. */
  function ToLower(s: string): (r: string)
    ensures |r| == |s|
    ensures forall i :: 0 <= i < |s| ==> r[i] == LowerChar(s[i])
  {
    if s == [] then [] else [LowerChar(s[0])] + ToLower(s[1..])
  }

  // ---------------------------------------------------------------------------
  // String(n)

  function DigitChar(d: nat): char
    requires d < 10
  {
    ('0' as int + d) as char
  }

  /** `String(n)` for a non-negative integer: its decimal digits. */
  function Decimal(n: nat): (r: string)
    ensures |r| >= 1
    ensures forall i :: 0 <= i < |r| ==> '0' <= r[i] <= '9'
  {
    if n < 10 then [DigitChar(n)] else Decimal(n / 10) + [DigitChar(n % 10)]
  }
}
