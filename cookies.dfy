/** Cookie capture (src/har-exporter.ts): the request's `Cookie` header
    split into name/value records, and each `Set-Cookie` value of a
    response parsed into a cookie record with its attributes, loosely
    following the grammar of section 4.1.1 of RFC 6265. */
module Cookies {
  import opened Text
  import opened Har
  import opened Headers

  /** A cookie record with only a name and a value (`undefined` when the
      text holds no `=`). */
  function Plain(name: string, value: Option<string>): Cookie
  {
    Cookie(name, value, None, None, None, false, false)
  }

  /** `const [k, v] = s.split("=")`: the text before the first `=`, and
      the text between the first and the second `=` (undefined when the
      text holds no `=`). */
  function SplitPair(s: string): (kv: (string, Option<string>))
    ensures '=' !in kv.0
    ensures kv.1.None? <==> '=' !in s
    ensures kv.1.None? ==> kv.0 == s
    ensures kv.1.Some? ==> '=' !in kv.1.value && kv.0 + "=" + kv.1.value <= s
  {
    var parts := Split(s, "=");
    SplitPairFacts(s);
    (parts[0], if |parts| >= 2 then Some(parts[1]) else None)
  }

  lemma SplitPairFacts(s: string)
    ensures forall i :: 0 <= i < |Split(s, "=")| ==> '=' !in Split(s, "=")[i]
    ensures |Split(s, "=")| == 1 <==> '=' !in s
    ensures |Split(s, "=")| == 1 ==> Split(s, "=")[0] == s
    ensures |Split(s, "=")| >= 2 ==> Split(s, "=")[0] + "=" + Split(s, "=")[1] <= s
  {
    assert "=" == ['='];
    SplitOnCharPieces(s, '=', []);
    SplitOnCharCount(s, '=', []);
    if |Split(s, "=")| >= 2 {
      SplitOnCharPrefix(s, '=', []);
    }
    PieceFacts(s);
  }

  /** `const [name, value] = piece.split("=")`: the name is the text before
      the first `=` (the whole piece when it has none), the value the text
      between the first and the second `=`. */
  function CookieOfPiece(piece: string): (c: Cookie)
    ensures c.path == None && c.domain == None && c.expires == None && !c.httpOnly && !c.secure
    ensures c.name <= piece && '=' !in c.name
    ensures c.name == piece <==> c.value == None
    ensures c.value == None <==> '=' !in piece
    ensures c.value.Some? ==> '=' !in c.value.value && c.name + "=" + c.value.value <= piece
  {
    var kv := SplitPair(piece);
    PieceFacts(piece);
    Plain(kv.0, kv.1)
  }

  /** The first piece of a split is a prefix of the text, and it is the
      whole text exactly when nothing was split off. */
  lemma PieceFacts(piece: string)
    ensures Split(piece, "=")[0] <= piece
    ensures Split(piece, "=")[0] == piece <==> |Split(piece, "=")| == 1
  {
    FirstPiece(piece, "=", []);
    assert [] + piece == piece;
  }

  // ---------------------------------------------------------------------------
  // Request cookies

  /** One record per piece, in order. */
  function CookiesOfPieces(pieces: seq<string>): (r: seq<Cookie>)
    ensures |r| == |pieces|
    ensures forall i :: 0 <= i < |pieces| ==> r[i] == CookieOfPiece(pieces[i])
  {
    seq(|pieces|, i requires 0 <= i < |pieces| => CookieOfPiece(pieces[i]))
  }

  /** `request.cookies`: empty when the `cookie` header is missing, empty
      or 0; otherwise one record per `"; "`-separated piece. A list or a
      non-zero number has no `split` method, so reading it throws. */
  function RequestCookies(header: Option<HeaderValue>): (r: Result<seq<Cookie>>)
    ensures !Truthy(header) ==> r == Ok([])
    ensures Truthy(header) && !header.value.Single? ==> r == Threw(NotAFunction("split"))
    ensures header.Some? && header.value.Single? && header.value.text != "" ==>
              r.Ok? && |r.value| == |Split(header.value.text, "; ")|
  {
    match header
    case None => Ok([])
    case Some(Single(s)) =>
      if s == "" then Ok([])
      else
        Ok(CookiesOfPieces(Split(s, "; ")))
    case Some(List(_)) => Threw(NotAFunction("split"))
    case Some(Number(n)) => if n == 0 then Ok([]) else Threw(NotAFunction("split"))
  }

  /** The `name=value` pieces of the given pairs. */
  function PairPieces(pairs: seq<(string, string)>): (r: seq<string>)
    ensures |r| == |pairs|
    ensures forall i :: 0 <= i < |pairs| ==> r[i] == pairs[i].0 + "=" + pairs[i].1
  {
    seq(|pairs|, i requires 0 <= i < |pairs| => pairs[i].0 + "=" + pairs[i].1)
  }

  /** The `Cookie` header a client sends for the given name/value pairs. */
  function CookieHeader(pairs: seq<(string, string)>): string
  {
    Join(PairPieces(pairs), "; ")
  }

  /** The records expected back for the given pairs. */
  function PlainCookies(pairs: seq<(string, string)>): (r: seq<Cookie>)
    ensures |r| == |pairs|
    ensures forall i :: 0 <= i < |pairs| ==> r[i] == Plain(pairs[i].0, Some(pairs[i].1))
  {
    seq(|pairs|, i requires 0 <= i < |pairs| => Plain(pairs[i].0, Some(pairs[i].1)))
  }

  /** Names and values free of `=` and `;`, as RFC 6265 cookie-pairs are. */
  ghost predicate SimplePairs(pairs: seq<(string, string)>)
  {
    forall i :: 0 <= i < |pairs| ==>
      '=' !in pairs[i].0 && ';' !in pairs[i].0 && '=' !in pairs[i].1 && ';' !in pairs[i].1
  }

  /** One `name=value` piece splits back into its name and value. */
  lemma PieceRoundTrip(n: string, v: string)
    requires '=' !in n && '=' !in v
    ensures CookieOfPiece(n + "=" + v) == Plain(n, Some(v))
  {
    SplitCons(n, v, "=");
    SplitPlain(v, "=");
  }

  /** Parsing the `Cookie` header of simple name/value pairs gives back
      exactly those pairs, in order. */
  lemma RequestCookiesRoundTrip(pairs: seq<(string, string)>)
    requires |pairs| >= 1 && SimplePairs(pairs)
    ensures RequestCookies(Some(Single(CookieHeader(pairs)))) == Ok(PlainCookies(pairs))
  {
    var pieces := PairPieces(pairs);
    forall i | 0 <= i < |pieces|
      ensures ';' !in pieces[i]
      ensures CookieOfPiece(pieces[i]) == Plain(pairs[i].0, Some(pairs[i].1))
    {
      PieceRoundTrip(pairs[i].0, pairs[i].1);
    }
    SplitJoin(pieces, "; ");
    var h := CookieHeader(pairs);
    assert h != "" by {
      JoinLength(pieces, "; ");
      assert |pieces[0]| > 0 by { assert pieces[0] == pairs[0].0 + "=" + pairs[0].1; }
      assert TotalLength(pieces) >= |pieces[0]|;
    }
    assert CookiesOfPieces(Split(h, "; ")) == PlainCookies(pairs);
  }

  /** A request `Cookie` header `a=1; b=2`. */
  lemma RequestCookiesExample()
    ensures RequestCookies(Some(Single("a=1; b=2"))) == Ok([Plain("a", Some("1")), Plain("b", Some("2"))])
  {
    var pairs := [("a", "1"), ("b", "2")];
    var pieces := PairPieces(pairs);
    assert pieces == ["a=1", "b=2"] by {
      assert pieces[0] == "a" + "=" + "1" == "a=1";
      assert pieces[1] == "b" + "=" + "2" == "b=2";
    }
    assert Join(pieces, "; ") == "a=1; b=2" by {
      assert Join(pieces[1..], "; ") == "b=2";
      assert "a=1" + "; " + "b=2" == "a=1; b=2";
    }
    RequestCookiesRoundTrip(pairs);
    assert PlainCookies(pairs) == [Plain("a", Some("1")), Plain("b", Some("2"))];
  }

  /** A value holding a further `=` is cut there: the name is the text
      before the first `=` and only the text between the first and the
      second `=` is kept. */
  lemma ValueStopsAtSecondEquals(n: string, v: string, rest: string)
    requires '=' !in n && '=' !in v
    ensures CookieOfPiece(n + "=" + v + "=" + rest) == Plain(n, Some(v))
  {
    assert n + "=" + v + "=" + rest == n + "=" + (v + "=" + rest);
    SplitCons(n, v + "=" + rest, "=");
    SplitCons(v, rest, "=");
  }

  // ---------------------------------------------------------------------------
  // Response cookies

  /** A `Set-Cookie` attribute as the loop reads it: the text before its
      first `=`, trimmed and lower-cased, and the untrimmed text after that
      `=` up to any second `=` (undefined when there is no `=`). */
  datatype Attribute = Attribute(name: string, value: Option<string>)

  function ParseAttribute(attr: string): (a: Attribute)
    ensures a.value.None? <==> '=' !in attr
    ensures a.value.None? ==> a.name == ToLower(Trim(attr))
    ensures a.value.Some? ==>
              '=' !in a.value.value && SplitPair(attr).0 + "=" + a.value.value <= attr &&
              a.name == ToLower(Trim(SplitPair(attr).0))
  {
    var kv := SplitPair(attr);
    Attribute(ToLower(Trim(kv.0)), kv.1)
  }

  /** An attribute `k=v` reads as the trimmed, lower-cased `k` with the
      untrimmed value `v`, whatever follows a second `=`. */
  lemma AttributeOfPair(k: string, v: string, rest: string)
    requires '=' !in k && '=' !in v
    ensures ParseAttribute(k + "=" + v) == Attribute(ToLower(Trim(k)), Some(v))
    ensures ParseAttribute(k + "=" + v + "=" + rest) == Attribute(ToLower(Trim(k)), Some(v))
  {
    SplitCons(k, v, "=");
    SplitPlain(v, "=");
    assert k + "=" + v + "=" + rest == k + "=" + (v + "=" + rest);
    SplitCons(k, v + "=" + rest, "=");
    SplitCons(v, rest, "=");
  }

  function Attributes(parts: seq<string>): (r: seq<Attribute>)
    ensures |r| == |parts|
    ensures forall k :: 0 <= k < |parts| ==> r[k] == ParseAttribute(parts[k])
  {
    seq(|parts|, k requires 0 <= k < |parts| => ParseAttribute(parts[k]))
  }

  /** One pass of the `switch` over an attribute name: `path`, `domain`
      and `expires` take the attribute's value, `httponly` and `secure` set
      their flag, and nothing else changes. */
  function ApplyAttribute(c: Cookie, a: Attribute): (r: Cookie)
    ensures r.name == c.name && r.value == c.value
    ensures TextAttribute(r, "path") == if a.name == "path" then a.value else c.path
    ensures TextAttribute(r, "domain") == if a.name == "domain" then a.value else c.domain
    ensures TextAttribute(r, "expires") == if a.name == "expires" then a.value else c.expires
    ensures r.httpOnly == (c.httpOnly || a.name == "httponly")
    ensures r.secure == (c.secure || a.name == "secure")
  {
    if a.name == "path" then c.(path := a.value)
    else if a.name == "domain" then c.(domain := a.value)
    else if a.name == "expires" then c.(expires := a.value)
    else if a.name == "httponly" then c.(httpOnly := true)
    else if a.name == "secure" then c.(secure := true)
    else c
  }

  /** The attributes applied in order. */
  function Applied(c: Cookie, attrs: seq<Attribute>): Cookie
  {
    if attrs == [] then c
    else ApplyAttribute(Applied(c, attrs[..|attrs| - 1]), attrs[|attrs| - 1])
  }

  /** The record for one `Set-Cookie` value: the first `;`-segment gives
      name and value, the others are attributes. The name is the text
      before the first `=` or `;`, the value runs from there to the next
      `=` or `;`, and a text without `;` is a plain pair. */
  function SetCookieOf(text: string): (c: Cookie)
    ensures c.name <= text && '=' !in c.name && ';' !in c.name
    ensures c.value.Some? ==>
              c.name + "=" + c.value.value <= text && '=' !in c.value.value && ';' !in c.value.value
    ensures ';' !in text ==> c == CookieOfPiece(text)
  {
    var parts := Split(text, ";");
    SetCookiePairFacts(text);
    SetCookieNameValue(text);
    AppliedKeepsPair(CookieOfPiece(parts[0]), Attributes(parts[1..]));
    Applied(CookieOfPiece(parts[0]), Attributes(parts[1..]))
  }

  /** The pair read from the first `;`-segment begins the text and holds
      no `;`. */
  lemma SetCookieNameValue(text: string)
    ensures CookieOfPiece(Split(text, ";")[0]).name <= text
    ensures ';' !in CookieOfPiece(Split(text, ";")[0]).name
    ensures CookieOfPiece(Split(text, ";")[0]).value.Some? ==>
              var c := CookieOfPiece(Split(text, ";")[0]);
              c.name + "=" + c.value.value <= text && ';' !in c.value.value
  {
    var p := Split(text, ";")[0];
    SetCookiePairFacts(text);
    var c := CookieOfPiece(p);
    PrefixChars(c.name, p);
    if c.value.Some? {
      var v := c.value.value;
      var pre := c.name + "=" + v;
      assert pre <= p;
      assert ';' !in v by {
        forall i | 0 <= i < |v| ensures v[i] != ';' {
          assert v[i] == pre[|c.name| + 1 + i] == p[|c.name| + 1 + i];
        }
      }
    }
  }

  /** A prefix holds only characters of the text it begins. */
  lemma PrefixChars(x: string, y: string)
    requires x <= y
    ensures forall ch :: ch in x ==> ch in y
  {
    forall ch | ch in x ensures ch in y {
      var i :| 0 <= i < |x| && x[i] == ch;
      assert y[i] == ch;
    }
  }

  lemma SetCookiePairFacts(text: string)
    ensures Split(text, ";")[0] <= text && ';' !in Split(text, ";")[0]
    ensures ';' !in text ==> Split(text, ";") == [text]
  {
    assert ";" == [';'];
    SplitOnCharPieces(text, ';', []);
    FirstPiece(text, ";", []);
    assert [] + text == text;
    if ';' !in text {
      SplitPlain(text, ";");
    }
  }

  /** The callback `cookie => { … }` of the source: the attribute loop with
      its `switch`, updating the record in place. */
  method ParseSetCookie(text: string) returns (c: Cookie)
    ensures c == SetCookieOf(text)
  {
    var parts := Split(text, ";");
    var kv := Split(parts[0], "=");
    c := Plain(kv[0], if |kv| >= 2 then Some(kv[1]) else None);
    var attrs := parts[1..];
    ghost var parsed := Attributes(attrs);
    for i := 0 to |attrs|
      invariant c == Applied(CookieOfPiece(parts[0]), parsed[..i])
    {
      var attrParts := Split(attrs[i], "=");
      var attrName := ToLower(Trim(attrParts[0]));
      var attrValue := if |attrParts| >= 2 then Some(attrParts[1]) else None;
      assert parsed[i] == Attribute(attrName, attrValue);
      if attrName == "path" {
        c := c.(path := attrValue);
      } else if attrName == "domain" {
        c := c.(domain := attrValue);
      } else if attrName == "expires" {
        c := c.(expires := attrValue);
      } else if attrName == "httponly" {
        c := c.(httpOnly := true);
      } else if attrName == "secure" {
        c := c.(secure := true);
      }
      assert parsed[..i + 1][..i] == parsed[..i];
    }
    assert parsed[..|attrs|] == parsed;
  }

  /** The value of one of the three text attributes. */
  function TextAttribute(c: Cookie, key: string): Option<string>
  {
    if key == "path" then c.path else if key == "domain" then c.domain else c.expires
  }

  /** Attributes never touch the name and value. */
  lemma {:induction false} AppliedKeepsPair(c: Cookie, attrs: seq<Attribute>)
    ensures Applied(c, attrs).name == c.name && Applied(c, attrs).value == c.value
    decreases |attrs|
  {
    if attrs != [] {
      AppliedKeepsPair(c, attrs[..|attrs| - 1]);
    }
  }

  /** `path`, `domain` and `expires` are left as they were when no
      attribute of that name appears. */
  lemma {:induction false} AbsentTextAttributeKept(c: Cookie, attrs: seq<Attribute>, key: string)
    requires key == "path" || key == "domain" || key == "expires"
    requires forall k :: 0 <= k < |attrs| ==> attrs[k].name != key
    ensures TextAttribute(Applied(c, attrs), key) == TextAttribute(c, key)
    decreases |attrs|
  {
    if attrs != [] {
      var n := |attrs| - 1;
      assert forall k :: 0 <= k < n ==> attrs[..n][k] == attrs[k];
      AbsentTextAttributeKept(c, attrs[..n], key);
    }
  }

  /** `path`, `domain` and `expires` take the value of the last attribute of
      that name. */
  lemma {:induction false} LastTextAttributeWins(c: Cookie, attrs: seq<Attribute>, key: string, j: nat)
    requires key == "path" || key == "domain" || key == "expires"
    requires j < |attrs| && attrs[j].name == key
    requires forall k :: j < k < |attrs| ==> attrs[k].name != key
    ensures TextAttribute(Applied(c, attrs), key) == attrs[j].value
    decreases |attrs|
  {
    var n := |attrs| - 1;
    if j < n {
      assert forall k :: j < k < n ==> attrs[..n][k] == attrs[k];
      LastTextAttributeWins(c, attrs[..n], key, j);
    }
  }

  /** `HttpOnly` and `Secure` set their flag as soon as one such attribute
      appears, whatever its value. */
  lemma {:induction false} FlagsFromAttributes(c: Cookie, attrs: seq<Attribute>)
    ensures Applied(c, attrs).httpOnly <==>
              c.httpOnly || exists k :: 0 <= k < |attrs| && attrs[k].name == "httponly"
    ensures Applied(c, attrs).secure <==>
              c.secure || exists k :: 0 <= k < |attrs| && attrs[k].name == "secure"
    decreases |attrs|
  {
    if attrs != [] {
      var n := |attrs| - 1;
      FlagsFromAttributes(c, attrs[..n]);
      assert forall k :: 0 <= k < n ==> attrs[..n][k] == attrs[k];
    }
  }

  /** Attributes whose name is none of the five recognised ones change
      nothing. */
  lemma {:induction false} UnknownAttributesIgnored(c: Cookie, attrs: seq<Attribute>)
    requires forall k :: 0 <= k < |attrs| ==>
               attrs[k].name !in {"path", "domain", "expires", "httponly", "secure"}
    ensures Applied(c, attrs) == c
    decreases |attrs|
  {
    if attrs != [] {
      var n := |attrs| - 1;
      assert attrs[n].name !in {"path", "domain", "expires", "httponly", "secure"};
      UnknownAttributesIgnored(c, attrs[..n]);
    }
  }

  lemma PathAttribute(p: string)
    requires '=' !in p
    ensures ParseAttribute(" Path=" + p) == Attribute("path", Some(p))
  {
    assert " Path=" + p == " Path" + "=" + p;
    SplitCons(" Path", p, "=");
    SplitPlain(p, "=");
    TrimmedPath();
    LowerPath();
  }

  lemma TrimmedPath()
    ensures Trim(" Path") == "Path"
  {
    TrimOneSpace("Path");
    assert " " + "Path" == " Path";
  }

  lemma LowerPath()
    ensures ToLower("Path") == "path"
  {
  }

  lemma HttpOnlyAttribute()
    ensures ParseAttribute(" HttpOnly") == Attribute("httponly", None)
  {
    SplitPlain(" HttpOnly", "=");
    TrimmedHttpOnly();
    LowerHttpOnly();
  }

  lemma TrimmedHttpOnly()
    ensures Trim(" HttpOnly") == "HttpOnly"
  {
    TrimOneSpace("HttpOnly");
    assert " " + "HttpOnly" == " HttpOnly";
  }

  lemma LowerHttpOnly()
    ensures ToLower("HttpOnly") == "httponly"
  {
  }

  lemma AppliedTwo(c: Cookie, a: Attribute, b: Attribute)
    ensures Applied(c, [a, b]) == ApplyAttribute(ApplyAttribute(c, a), b)
  {
    assert [a, b][..1] == [a];
    assert [a][..0] == [];
    assert Applied(c, [a]) == ApplyAttribute(c, a);
  }

  /** The three `;` pieces of `n=v; Path=p; HttpOnly`. */
  lemma SplitSetCookie(n: string, v: string, p: string)
    requires ';' !in n && ';' !in v && ';' !in p
    ensures Split(n + "=" + v + "; Path=" + p + "; HttpOnly", ";") ==
            [n + "=" + v, " Path=" + p, " HttpOnly"]
  {
    var first, second := n + "=" + v, " Path=" + p;
    assert ';' !in first;
    assert ';' !in second;
    assert "; Path=" == ";" + " Path=" && "; HttpOnly" == ";" + " HttpOnly";
    calc {
      n + "=" + v + "; Path=" + p + "; HttpOnly";
      first + (";" + " Path=") + p + (";" + " HttpOnly");
      first + ";" + (second + ";" + " HttpOnly");
    }
    SplitCons(first, second + ";" + " HttpOnly", ";");
    SplitCons(second, " HttpOnly", ";");
    SplitPlain(" HttpOnly", ";");
  }

  /** A `Set-Cookie` text of three `;` pieces: the pair, then the two
      attributes applied in order. */
  lemma SetCookieOfThree(text: string, first: string, a: string, b: string)
    requires Split(text, ";") == [first, a, b]
    ensures SetCookieOf(text) ==
            ApplyAttribute(ApplyAttribute(CookieOfPiece(first), ParseAttribute(a)), ParseAttribute(b))
  {
    var parts := Split(text, ";");
    assert parts[1..] == [a, b];
    assert Attributes(parts[1..]) == [ParseAttribute(a), ParseAttribute(b)];
    AppliedTwo(CookieOfPiece(first), ParseAttribute(a), ParseAttribute(b));
  }

  /** A `Set-Cookie` value of the shape `id=42; Path=/; HttpOnly`: a
      name/value pair, a `Path` and the `HttpOnly` flag. */
  lemma SetCookieWithPathAndHttpOnly(n: string, v: string, p: string)
    requires '=' !in n && ';' !in n && '=' !in v && ';' !in v && '=' !in p && ';' !in p
    ensures SetCookieOf(n + "=" + v + "; Path=" + p + "; HttpOnly") ==
            Cookie(n, Some(v), Some(p), None, None, true, false)
  {
    SplitSetCookie(n, v, p);
    SetCookieOfThree(n + "=" + v + "; Path=" + p + "; HttpOnly", n + "=" + v, " Path=" + p, " HttpOnly");
    PieceRoundTrip(n, v);
    PathAttribute(p);
    HttpOnlyAttribute();
  }

  /** One record per `set-cookie` value, in order. */
  function SetCookies(vs: seq<string>): (r: seq<Cookie>)
    ensures |r| == |vs|
    ensures forall i :: 0 <= i < |vs| ==> r[i] == SetCookieOf(vs[i])
  {
    seq(|vs|, i requires 0 <= i < |vs| => SetCookieOf(vs[i]))
  }

  /** `response.cookies`: `[]` unless the response carries a `cookie`
      header (the guard reads `cookie`, not `set-cookie`); then one record
      per `set-cookie` value. A missing `set-cookie` throws on
      `undefined.map`; a string or a number has no `map` method. */
  function ResponseCookies(hs: HeaderList): (r: Result<seq<Cookie>>)
    ensures !Truthy(Lookup(hs, "cookie")) ==> r == Ok([])
    ensures Truthy(Lookup(hs, "cookie")) && Lookup(hs, "set-cookie") == None ==>
              r == Threw(ReadOfUndefined("map"))
    ensures Truthy(Lookup(hs, "cookie")) && Lookup(hs, "set-cookie").Some? &&
            !Lookup(hs, "set-cookie").value.List? ==>
              r == Threw(NotAFunction("map"))
    ensures r.Ok? && Truthy(Lookup(hs, "cookie")) ==>
              Lookup(hs, "set-cookie").Some? && Lookup(hs, "set-cookie").value.List? &&
              |r.value| == |Lookup(hs, "set-cookie").value.values|
  {
    if !Truthy(Lookup(hs, "cookie")) then Ok([])
    else
      match Lookup(hs, "set-cookie")
      case None => Threw(ReadOfUndefined("map"))
      case Some(List(vs)) => Ok(SetCookies(vs))
      case Some(_) => Threw(NotAFunction("map"))
  }

  /** The `map` over the `set-cookie` values, one callback per value. */
  method ParseResponseCookies(hs: HeaderList) returns (r: Result<seq<Cookie>>)
    ensures r == ResponseCookies(hs)
  {
    if !Truthy(Lookup(hs, "cookie")) {
      return Ok([]);
    }
    var setCookie := Lookup(hs, "set-cookie");
    if setCookie.None? {
      return Threw(ReadOfUndefined("map"));
    } else if !setCookie.value.List? {
      return Threw(NotAFunction("map"));
    }
    var vs := setCookie.value.values;
    var cookies: seq<Cookie> := [];
    for i := 0 to |vs|
      invariant |cookies| == i
      invariant forall k :: 0 <= k < i ==> cookies[k] == SetCookieOf(vs[k])
    {
      var c := ParseSetCookie(vs[i]);
      cookies := cookies + [c];
    }
    assert cookies == SetCookies(vs);
    r := Ok(cookies);
  }
}
