/** Header conversion (`convertHeadersWithSize`, src/har-exporter.ts):
    a header object becomes the archive's ordered name/value list and an
    approximate wire size. */
module Headers {
  import opened Text
  import opened Har

  /** A header object's value: one string, a list of strings (as Node
      gives `set-cookie`), or a number (as `setHeader` stores one, e.g. a
      `content-length`). */
  datatype HeaderValue = Single(text: string) | List(values: seq<string>) | Number(n: nat)

  /** A header object as `Object.entries` lists it: names in insertion order. */
  type HeaderList = seq<(string, HeaderValue)>

  /** `String(value)`: a list becomes its comma-joined text, a number its
      decimal digits. */
  function StringOf(v: HeaderValue): string
  {
    match v
    case Single(s) => s
    case List(vs) => Join(vs, ",")
    case Number(n) => Decimal(n)
  }

  /** `headers[name]`: the value stored under `name`, or undefined. Object
      keys are unique, so the first match is the only one. */
  function Lookup(hs: HeaderList, name: string): (r: Option<HeaderValue>)
    ensures r.None? <==> forall i :: 0 <= i < |hs| ==> hs[i].0 != name
    ensures r.Some? ==> exists i :: 0 <= i < |hs| && hs[i] == (name, r.value)
  {
    if hs == [] then None
    else if hs[0].0 == name then Some(hs[0].1)
    else
      var r := Lookup(hs[1..], name);
      assert forall i :: 1 <= i < |hs| ==> hs[i] == hs[1..][i - 1];
      r
  }

  /** JavaScript truthiness of a looked-up header: undefined, "" and 0 are
      falsy, any list (even an empty one) is truthy. */
  predicate Truthy(v: Option<HeaderValue>)
  {
    match v
    case None => false
    case Some(Single(s)) => s != ""
    case Some(List(_)) => true
    case Some(Number(n)) => n != 0
  }

  /** One `{name, value}` pair per element of a list value, in order. */
  function ListPairs(name: string, vs: seq<string>): (r: seq<NameValue>)
    ensures |r| == |vs|
    ensures forall k :: 0 <= k < |vs| ==> r[k] == NameValue(name, vs[k])
  {
    seq(|vs|, k requires 0 <= k < |vs| => NameValue(name, vs[k]))
  }

  /** The pairs one header contributes: one per list element, then one more
      whose value is `String(value)`; any other value gives just that one. */
  function PairsOf(name: string, v: HeaderValue): seq<NameValue>
  {
    match v
    case List(vs) => ListPairs(name, vs) + [NameValue(name, Join(vs, ","))]
    case _ => [NameValue(name, StringOf(v))]
  }

  /** What one header adds to the size: for a list, `|name|·k + |join("")| + 4k`,
      and for every header `|name| + 4 + |String(value)|`. */
  function SizeOf(name: string, v: HeaderValue): int
  {
    (match v
     case List(vs) => |name| * |vs| + |Join(vs, "")| + 4 * |vs|
     case _ => 0)
    + |name| + 4 + |StringOf(v)|
  }

  /** The converted list of a header object, in entry order. */
  function Converted(hs: HeaderList): seq<NameValue>
  {
    if hs == [] then [] else PairsOf(hs[0].0, hs[0].1) + Converted(hs[1..])
  }

  /** The computed size of a header object; the accumulator starts at 2. */
  function Size(hs: HeaderList): int
  {
    if hs == [] then 2 else SizeOf(hs[0].0, hs[0].1) + Size(hs[1..])
  }

  /** Conversion is order-preserving and compositional: converting two
      header lists one after the other gives the two results concatenated. */
  lemma {:induction false} ConvertedAppend(a: HeaderList, b: HeaderList)
    ensures Converted(a + b) == Converted(a) + Converted(b)
    decreases |a|
  {
    if a == [] {
      assert a + b == b;
    } else {
      assert (a + b)[0] == a[0] && (a + b)[1..] == a[1..] + b;
      ConvertedAppend(a[1..], b);
    }
  }

  /** The size of two header lists together is their two sizes less one
      terminator. */
  lemma {:induction false} SizeAppend(a: HeaderList, b: HeaderList)
    ensures Size(a + b) == Size(a) + Size(b) - 2
    decreases |a|
  {
    if a == [] {
      assert a + b == b;
    } else {
      assert (a + b)[0] == a[0] && (a + b)[1..] == a[1..] + b;
      SizeAppend(a[1..], b);
    }
  }

  lemma ConvertedSnoc(hs: HeaderList, h: (string, HeaderValue))
    ensures Converted(hs + [h]) == Converted(hs) + PairsOf(h.0, h.1)
    ensures Size(hs + [h]) == Size(hs) + SizeOf(h.0, h.1)
  {
    ConvertedAppend(hs, [h]);
    SizeAppend(hs, [h]);
    assert [h][1..] == [];
  }

  /** One more header of the same object: its pairs and its size follow
      those of the headers before it. */
  lemma ConvertedPrefix(hs: HeaderList, i: nat)
    requires i < |hs|
    ensures Converted(hs[..i + 1]) == Converted(hs[..i]) + PairsOf(hs[i].0, hs[i].1)
    ensures Size(hs[..i + 1]) == Size(hs[..i]) + SizeOf(hs[i].0, hs[i].1)
  {
    assert hs[..i + 1] == hs[..i] + [hs[i]];
    ConvertedSnoc(hs[..i], hs[i]);
  }

  /** The reducer callback of `convertHeadersWithSize`: adds one header's
      share to the size and pushes its pairs onto the converted list. */
  method AddHeader(converted: seq<NameValue>, size: int, name: string, value: HeaderValue)
    returns (converted': seq<NameValue>, size': int)
    ensures converted' == converted + PairsOf(name, value)
    ensures size' == size + SizeOf(name, value)
  {
    converted', size' := converted, size;
    if value.List? {
      var vs := value.values;
      size' := size' + |name| * |vs| + |Join(vs, "")| + 4 * |vs|;
      for j := 0 to |vs|
        invariant converted' == converted + ListPairs(name, vs[..j])
      {
        assert ListPairs(name, vs[..j + 1]) == ListPairs(name, vs[..j]) + [NameValue(name, vs[j])];
        converted' := converted' + [NameValue(name, vs[j])];
      }
      assert vs[..|vs|] == vs;
    }
    size' := size' + |name| + 4 + |StringOf(value)|;
    converted' := converted' + [NameValue(name, StringOf(value))];
  }

  /** `convertHeadersWithSize(headers)`: the reduce over `Object.entries`,
      starting from an empty list and size 2. */
  method ConvertHeadersWithSize(hs: HeaderList) returns (converted: seq<NameValue>, size: int)
    ensures converted == Converted(hs)
    ensures size == Size(hs)
  {
    converted, size := [], 2;
    var i := 0;
    while i < |hs|
      invariant 0 <= i <= |hs|
      invariant converted == Converted(hs[..i])
      invariant size == Size(hs[..i])
    {
      converted, size := AddHeader(converted, size, hs[i].0, hs[i].1);
      ConvertedPrefix(hs, i);
      i := i + 1;
    }
    assert hs[..i] == hs;
  }

  // ---------------------------------------------------------------------------
  // What the conversion and the size mean

  /** The `name: value\r\n` length of a list of pairs: name, value and four
      characters for ": " and CRLF. */
  function WireSize(ps: seq<NameValue>): nat
  {
    if ps == [] then 0 else |ps[0].name| + 4 + |ps[0].value| + WireSize(ps[1..])
  }

  lemma {:induction false} WireSizeAppend(a: seq<NameValue>, b: seq<NameValue>)
    ensures WireSize(a + b) == WireSize(a) + WireSize(b)
    decreases |a|
  {
    if a != [] {
      assert (a + b)[1..] == a[1..] + b;
      WireSizeAppend(a[1..], b);
    } else {
      assert a + b == b;
    }
  }

  lemma {:induction false} WireSizeOfList(name: string, vs: seq<string>)
    ensures WireSize(ListPairs(name, vs)) == |name| * |vs| + 4 * |vs| + TotalLength(vs)
    decreases |vs|
  {
    if vs != [] {
      assert ListPairs(name, vs)[1..] == ListPairs(name, vs[1..]);
      WireSizeOfList(name, vs[1..]);
    }
  }

  /** One header's size is exactly the wire size of the pairs it contributes. */
  lemma PairsOfSize(name: string, v: HeaderValue)
    ensures WireSize(PairsOf(name, v)) == SizeOf(name, v)
  {
    match v
    case List(vs) =>
      var ps := ListPairs(name, vs);
      var last := [NameValue(name, Join(vs, ","))];
      WireSizeAppend(ps, last);
      WireSizeOfList(name, vs);
      JoinLength(vs, "");
      assert last[1..] == [];
    case _ =>
      assert PairsOf(name, v)[1..] == [];
  }

  /** The computed size is the 2-character terminator plus the
      `name: value\r\n` length of every pair the conversion emits, the
      extra comma-joined pairs of list headers included. */
  lemma {:induction false} SizeIsWireSize(hs: HeaderList)
    ensures Size(hs) == 2 + WireSize(Converted(hs))
    decreases |hs|
  {
    if hs != [] {
      SizeIsWireSize(hs[1..]);
      WireSizeAppend(PairsOf(hs[0].0, hs[0].1), Converted(hs[1..]));
      PairsOfSize(hs[0].0, hs[0].1);
    }
  }

  /** The number of pairs: k + 1 per list of k values, one per other header. */
  function PairCount(hs: HeaderList): nat
  {
    if hs == [] then 0
    else (match hs[0].1 case List(vs) => |vs| + 1 case _ => 1) + PairCount(hs[1..])
  }

  lemma {:induction false} ConvertedLength(hs: HeaderList)
    ensures |Converted(hs)| == PairCount(hs)
    decreases |hs|
  {
    if hs != [] {
      ConvertedLength(hs[1..]);
    }
  }

  /** With no list values, the conversion is exactly one `{name, value}`
      pair per header, in input order, its value the header's text. */
  lemma {:induction false} SingleValuedHeaders(hs: HeaderList)
    requires forall i :: 0 <= i < |hs| ==> !hs[i].1.List?
    ensures |Converted(hs)| == |hs|
    ensures forall i :: 0 <= i < |hs| ==> Converted(hs)[i] == NameValue(hs[i].0, StringOf(hs[i].1))
    decreases |hs|
  {
    if hs != [] {
      SingleValuedHeaders(hs[1..]);
    }
  }

  /** The size a list header of k values adds, in closed form:
      `(|name| + 4)·(k + 1) + 2·Σ|vᵢ| + (k − 1)` commas when k > 0. */
  lemma ListHeaderSize(name: string, vs: seq<string>)
    ensures SizeOf(name, List(vs)) ==
            (|name| + 4) * (|vs| + 1) + 2 * TotalLength(vs) + (if vs == [] then 0 else |vs| - 1)
  {
    JoinLength(vs, "");
    JoinLength(vs, ",");
  }
}
