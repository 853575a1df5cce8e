/** The additional authenticated data bound into every record blob
    (backend/internal/crypto/aad.go): a length-prefixed byte string, and the
    canonical text of an `updatedAtMap` that is hashed into it. Go strings are
    byte sequences, and so they are here. SHA-256 is a parameter. */
module Aad {
  import opened Wrappers
  import opened Sequences
  import opened BigEndian

  type Digest = d: bytes | |d| == 32 witness seq(32, _ => 0)

  datatype AadInput = AadInput(
    verByte: byte,
    familyId: bytes,
    recordId: bytes,
    recordType: bytes,
    addedBy: bytes,
    editedBy: bytes,
    updatedAtMap: map<bytes, bytes>,
    deletedAt: bytes,
    plaintextByteCount: uint32,
    nonce: bytes)

  datatype NonceError = NonceError

  /** "expapp-rec-v1" */
  const PREFIX: bytes := [101, 120, 112, 97, 112, 112, 45, 114, 101, 99, 45, 118, 49]

  lemma PrefixIsText()
    ensures |PREFIX| == |"expapp-rec-v1"|
    ensures forall i :: 0 <= i < |PREFIX| ==> PREFIX[i] == "expapp-rec-v1"[i] as int
  {
  }

  // ---- length prefixes ----

  /** The length is truncated to 32 bits, as the conversion in the source does. */
  function Lp(b: bytes): bytes {
    Be32(|b| % TWO_TO_THE_32) + b
  }

  /** Reads one length-prefixed field and returns it with what follows. */
  function ReadLp(s: bytes): Option<(bytes, bytes)> {
    if |s| < 4 then None
    else
      var n := ReadBe32(s[..4]);
      if |s| < 4 + n then None else Some((s[4..4 + n], s[4 + n..]))
  }

  lemma LpRoundTrip(b: bytes, rest: bytes)
    requires |b| < TWO_TO_THE_32
    ensures ReadLp(Lp(b) + rest) == Some((b, rest))
  {
    var s := Lp(b) + rest;
    assert s[..4] == Be32(|b|);
    Be32RoundTrip(|b|);
    assert s[4..4 + |b|] == b && s[4 + |b|..] == rest;
  }

  method PutUint32(out: array<byte>, v: uint32)
    requires out.Length >= 4
    modifies out
    ensures out[..] == Be32(v) + old(out[4..])
  {
    out[0] := v / 0x100_0000;
    out[1] := (v / 0x1_0000) % 256;
    out[2] := (v / 256) % 256;
    out[3] := v % 256;
  }

  method Uint32Bytes(v: uint32) returns (r: bytes)
    ensures r == Be32(v)
  {
    var countBuf := new byte[4](_ => 0);
    PutUint32(countBuf, v);
    r := countBuf[..];
  }

  /** `lp`: allocates, writes the length in place, copies the content behind it. */
  method LengthPrefixed(b: bytes) returns (r: bytes)
    ensures r == Lp(b)
  {
    var out := new byte[4 + |b|](_ => 0);
    PutUint32(out, |b| % TWO_TO_THE_32);
    for i := 0 to |b|
      invariant out[..4] == Be32(|b| % TWO_TO_THE_32)
      invariant out[4..4 + i] == b[..i]
    {
      out[4 + i] := b[i];
    }
    r := out[..];
    assert r == out[..4] + out[4..4 + |b|];
  }

  // ---- the canonical text of a map ----

  predicate Less(a: bytes, b: bytes) {
    if b == [] then false
    else if a == [] then true
    else a[0] < b[0] || (a[0] == b[0] && Less(a[1..], b[1..]))
  }

  lemma {:induction false} LessTotal(a: bytes, b: bytes)
    ensures a == b || Less(a, b) || Less(b, a)
    ensures !(Less(a, b) && Less(b, a)) && !Less(a, a)
  {
    if a != [] && b != [] {
      LessTotal(a[1..], b[1..]);
      assert a == [a[0]] + a[1..] && b == [b[0]] + b[1..];
    }
    if a != [] { LessTotal(a[1..], a[1..]); }
  }

  lemma {:induction false} LessTransitive(a: bytes, b: bytes, c: bytes)
    requires Less(a, b) && Less(b, c)
    ensures Less(a, c)
  {
    if a != [] && a[0] == b[0] && b[0] == c[0] { LessTransitive(a[1..], b[1..], c[1..]); }
  }

  /** The order is ascending: the first byte that differs decides, and a key comes before
      those it begins. (It is total, so this says all of it.) */
  lemma {:induction false} LessIsAscending(p: bytes, b: byte, x: bytes, c: byte, y: bytes)
    ensures Less(p, p + [b] + x)
    ensures b < c ==> Less(p + [b] + x, p + [c] + y)
  {
    if p == [] {
      assert (p + [b] + x)[0] == b && (p + [c] + y)[0] == c;
    } else {
      LessIsAscending(p[1..], b, x, c, y);
      assert (p + [b] + x)[1..] == p[1..] + [b] + x && (p + [c] + y)[1..] == p[1..] + [c] + y;
    }
  }

  ghost predicate Sorted(ks: seq<bytes>) {
    forall i, j :: 0 <= i < j < |ks| ==> Less(ks[i], ks[j])
  }

  /** There is only one strictly increasing listing of a set of keys. */
  lemma {:induction false} SortedIsUnique(xs: seq<bytes>, ys: seq<bytes>)
    requires Sorted(xs) && Sorted(ys) && Elements(xs) == Elements(ys)
    ensures xs == ys
  {
    if xs == [] {
      assert forall i :: 0 <= i < |ys| ==> ys[i] in Elements(ys);
    } else {
      assert xs[0] in Elements(ys);
      assert ys != [] && ys[0] in Elements(xs);
      LessTotal(xs[0], ys[0]);
      forall k ensures k in Elements(xs[1..]) <==> k in Elements(ys[1..]) {
        TailKeys(xs, k);
        TailKeys(ys, k);
      }
      SortedIsUnique(xs[1..], ys[1..]);
    }
  }

  lemma TailKeys(xs: seq<bytes>, k: bytes)
    requires xs != [] && Sorted(xs)
    ensures k in Elements(xs[1..]) <==> k in Elements(xs) && k != xs[0]
  {
    forall j | 0 <= j < |xs| - 1 ensures xs[1..][j] != xs[0] {
      LessTotal(xs[0], xs[0]);
      assert Less(xs[0], xs[j + 1]);
    }
    assert forall i :: 0 < i < |xs| ==> xs[1..][i - 1] == xs[i];
  }

  function TextOf(ks: seq<bytes>, m: map<bytes, bytes>): bytes
    requires forall i :: 0 <= i < |ks| ==> ks[i] in m
  {
    if ks == [] then []
    else TextOf(ks[..|ks| - 1], m) + Line(ks[|ks| - 1], m[ks[|ks| - 1]])
  }

  /** One `key=value` line. */
  function Line(k: bytes, v: bytes): bytes {
    k + [61] + v + [10]
  }

  ghost predicate IsListing(ks: seq<bytes>, m: map<bytes, bytes>) {
    Sorted(ks) && Elements(ks) == m.Keys
  }

  ghost predicate IsCanonicalText(m: map<bytes, bytes>, text: bytes) {
    exists ks :: ListsText(ks, m, text)
  }

  ghost predicate ListsText(ks: seq<bytes>, m: map<bytes, bytes>, text: bytes) {
    IsListing(ks, m) && (forall i :: 0 <= i < |ks| ==> ks[i] in m) && text == TextOf(ks, m)
  }

  /** The canonical text of a map is unique: it does not depend on iteration order. */
  lemma CanonicalTextIsUnique(m: map<bytes, bytes>, t1: bytes, t2: bytes)
    requires IsCanonicalText(m, t1) && IsCanonicalText(m, t2)
    ensures t1 == t2
  {
    var k1 :| ListsText(k1, m, t1);
    var k2 :| ListsText(k2, m, t2);
    SortedIsUnique(k1, k2);
  }

  /** `sort.Strings`: the position of each key is found by comparison alone. */
  method SortStrings(keys: seq<bytes>) returns (sorted: seq<bytes>)
    requires forall i, j :: 0 <= i < j < |keys| ==> keys[i] != keys[j]
    ensures Sorted(sorted) && Elements(sorted) == Elements(keys)
  {
    sorted := [];
    for n := 0 to |keys|
      invariant Sorted(sorted) && Elements(sorted) == Elements(keys[..n])
    {
      var k, p := keys[n], |sorted|;
      assert forall i :: 0 <= i < n ==> keys[..n][i] != k;
      while p > 0 && Less(k, sorted[p - 1])
        invariant 0 <= p <= |sorted|
        invariant forall i :: p <= i < |sorted| ==> Less(k, sorted[i])
      {
        p := p - 1;
      }
      InsertSorted(sorted, k, p);
      assert keys[..n + 1] == keys[..n] + [k];
      ElementsSnoc(keys[..n], k);
      sorted := sorted[..p] + [k] + sorted[p..];
    }
    assert keys[..|keys|] == keys;
  }

  lemma InsertSorted(s: seq<bytes>, k: bytes, p: nat)
    requires Sorted(s) && k !in Elements(s) && p <= |s|
    requires p > 0 ==> !Less(k, s[p - 1])
    requires forall i :: p <= i < |s| ==> Less(k, s[i])
    ensures Sorted(s[..p] + [k] + s[p..])
    ensures Elements(s[..p] + [k] + s[p..]) == Elements(s) + {k}
  {
    var t := s[..p] + [k] + s[p..];
    forall i | 0 <= i < p ensures Less(s[i], k) {
      LessTotal(s[p - 1], k);
      assert s[p - 1] in Elements(s);
      if i < p - 1 { LessTransitive(s[i], s[p - 1], k); }
    }
    forall o ensures o in Elements(t) <==> o in Elements(s) + {k} {
      if o in Elements(s) {
        var i :| 0 <= i < |s| && s[i] == o;
        assert t[if i < p then i else i + 1] == o;
      }
      if o == k { assert t[p] == k; }
      if o in Elements(t) && o != k {
        var i :| 0 <= i < |t| && t[i] == o;
        assert s[if i < p then i else i - 1] == o;
      }
    }
  }

  /** `updatedAtMapDigest`: keys are collected in map order (arbitrary), sorted,
      then written out line by line. */
  method UpdatedAtMapDigest(m: map<bytes, bytes>, sha256: bytes -> Digest)
    returns (digest: Digest)
    ensures exists text :: IsCanonicalText(m, text) && digest == sha256(text)
  {
    var keys, todo := [], m.Keys;
    while todo != {}
      invariant todo <= m.Keys && Elements(keys) == m.Keys - todo
      invariant forall i, j :: 0 <= i < j < |keys| ==> keys[i] != keys[j]
      decreases todo
    {
      var k :| k in todo;
      assert forall i :: 0 <= i < |keys| ==> keys[i] in Elements(keys);
      ElementsSnoc(keys, k);
      keys, todo := keys + [k], todo - {k};
    }
    keys := SortStrings(keys);
    assert forall i :: 0 <= i < |keys| ==> keys[i] in Elements(keys);
    var content := [];
    for i := 0 to |keys|
      invariant content == TextOf(keys[..i], m)
    {
      assert keys[..i + 1][..i] == keys[..i];
      content := content + keys[i];
      content := content + [61];
      content := content + m[keys[i]];
      content := content + [10];
      assert content == TextOf(keys[..i], m) + Line(keys[i], m[keys[i]]);
    }
    assert keys[..|keys|] == keys;
    assert ListsText(keys, m, content);
    assert IsCanonicalText(m, content);
    digest := sha256(content);
  }

  // ---- when the text tells maps apart ----

  /** The map is written with the given bytes in its keys and in its values. */
  predicate Over(m: map<bytes, bytes>, keys: set<byte>, values: set<byte>) {
    forall k :: k in m ==> (forall b :: b in k ==> b in keys) && (forall b :: b in m[k] ==> b in values)
  }

  /** Lines can be read from the front, splitting at the first '=' and newline; or from
      the back, splitting at the last '=' and newline, as with timestamps for values; or
      from the front because no byte of a key can stand in a value. */
  predicate Legible(keys: set<byte>, values: set<byte>) {
    || (61 !in keys && 10 !in values)
    || (10 !in keys && 61 !in values)
    || (61 !in keys && 10 !in keys && keys !! values)
  }

  /** Over these bytes, different maps have different texts. */
  ghost predicate TellsApart(keys: set<byte>, values: set<byte>) {
    forall m1, m2, text ::
      Over(m1, keys, values) && Over(m2, keys, values) && IsCanonicalText(m1, text) && IsCanonicalText(m2, text) ==>
        m1 == m2
  }

  lemma SplitIsUnique(a: bytes, x: bytes, b: bytes, y: bytes, c: byte)
    requires a + [c] + x == b + [c] + y && c !in a && c !in b
    ensures a == b && x == y
  {
    var s, t := a + [c] + x, b + [c] + y;
    assert s[|a|] == c && t[|b|] == c;
    assert forall i :: 0 <= i < |b| ==> t[i] == b[i];
    assert forall i :: 0 <= i < |a| ==> s[i] == a[i];
    assert |a| == |b|;
    assert a == s[..|a|] && b == t[..|b|];
    assert x == s[|a| + 1..] && y == t[|b| + 1..];
  }

  lemma LastSplitIsUnique(a: bytes, x: bytes, b: bytes, y: bytes, c: byte)
    requires a + [c] + x == b + [c] + y && c !in x && c !in y
    ensures a == b && x == y
  {
    var s, t := a + [c] + x, b + [c] + y;
    assert s[|a|] == c && t[|b|] == c;
    assert forall i :: |b| < i < |t| ==> t[i] == y[i - |b| - 1];
    assert forall i :: |a| < i < |s| ==> s[i] == x[i - |a| - 1];
    assert |a| == |b|;
    assert a == s[..|a|] && b == t[..|b|];
    assert x == s[|a| + 1..] && y == t[|b| + 1..];
  }

  /** The text read from the front, one line at a time. */
  lemma {:induction false} TextFromFront(ks: seq<bytes>, m: map<bytes, bytes>)
    requires ks != [] && forall i :: 0 <= i < |ks| ==> ks[i] in m
    ensures TextOf(ks, m) == Line(ks[0], m[ks[0]]) + TextOf(ks[1..], m)
    decreases |ks|
  {
    if |ks| > 1 {
      var front, tail, last := ks[..|ks| - 1], ks[1..], ks[|ks| - 1];
      TextFromFront(front, m);
      assert tail[..|tail| - 1] == front[1..] && tail[|tail| - 1] == last;
      assert TextOf(tail, m) == TextOf(front[1..], m) + Line(last, m[last]);
      assert TextOf(ks, m) == TextOf(front, m) + Line(last, m[last]);
    } else {
      assert ks[..0] == [] && ks[1..] == [];
    }
  }

  /** What follows a line starts with a byte of a key, if at all. */
  predicate StartsIn(rest: bytes, keys: set<byte>) {
    rest != [] ==> rest[0] in keys
  }

  lemma NotShorter(v1: bytes, rest1: bytes, v2: bytes, rest2: bytes, keys: set<byte>, values: set<byte>)
    requires v1 + [10] + rest1 == v2 + [10] + rest2 && StartsIn(rest1, keys)
    requires keys !! values && 10 !in keys && forall b :: b in v2 ==> b in values
    ensures |v1| >= |v2|
  {
    var s, t := v1 + [10] + rest1, v2 + [10] + rest2;
    assert t[|v2|] == 10 && forall i :: 0 <= i < |v2| ==> t[i] == v2[i];
    assert rest1 != [] ==> s[|v1| + 1] == rest1[0];
  }

  lemma FirstLineDetermines(k1: bytes, v1: bytes, rest1: bytes, k2: bytes, v2: bytes, rest2: bytes,
                            keys: set<byte>, values: set<byte>)
    requires Line(k1, v1) + rest1 == Line(k2, v2) + rest2
    requires Over(map[k1 := v1], keys, values) && Over(map[k2 := v2], keys, values)
    requires 61 !in keys && (10 !in values || (10 !in keys && keys !! values))
    requires StartsIn(rest1, keys) && StartsIn(rest2, keys)
    ensures k1 == k2 && v1 == v2 && rest1 == rest2
  {
    assert k1 in map[k1 := v1] && k2 in map[k2 := v2];
    assert Line(k1, v1) + rest1 == k1 + [61] + (v1 + [10] + rest1);
    assert Line(k2, v2) + rest2 == k2 + [61] + (v2 + [10] + rest2);
    SplitIsUnique(k1, v1 + [10] + rest1, k2, v2 + [10] + rest2, 61);
    if 10 !in values {
      SplitIsUnique(v1, rest1, v2, rest2, 10);
    } else {
      NotShorter(v1, rest1, v2, rest2, keys, values);
      NotShorter(v2, rest2, v1, rest1, keys, values);
      assert v1 == (v1 + [10] + rest1)[..|v1|] && v2 == (v2 + [10] + rest2)[..|v2|];
      assert rest1 == (v1 + [10] + rest1)[|v1| + 1..] && rest2 == (v2 + [10] + rest2)[|v2| + 1..];
    }
  }

  /** `ks` lists keys of `m` in order, and `m` is over the given bytes. */
  ghost predicate Lists(ks: seq<bytes>, m: map<bytes, bytes>, keys: set<byte>, values: set<byte>) {
    Sorted(ks) && (forall i :: 0 <= i < |ks| ==> ks[i] in m) && Over(m, keys, values)
  }

  /** The text behind the first line. */
  lemma RestStarts(ks: seq<bytes>, m: map<bytes, bytes>, keys: set<byte>, values: set<byte>)
    requires Lists(ks, m, keys, values) && ks != []
    ensures TextOf(ks, m) == Line(ks[0], m[ks[0]]) + TextOf(ks[1..], m)
    ensures Over(map[ks[0] := m[ks[0]]], keys, values)
    ensures Lists(ks[1..], m, keys, values) && StartsIn(TextOf(ks[1..], m), keys)
  {
    TextFromFront(ks, m);
    if |ks| > 1 {
      TextFromFront(ks[1..], m);
      assert Less(ks[0], ks[1]) && ks[1][0] in ks[1];
    }
  }

  lemma {:induction false} ReadFromFront(k1: seq<bytes>, m1: map<bytes, bytes>, k2: seq<bytes>, m2: map<bytes, bytes>,
                                         keys: set<byte>, values: set<byte>)
    requires Lists(k1, m1, keys, values) && Lists(k2, m2, keys, values)
    requires 61 !in keys && (10 !in values || (10 !in keys && keys !! values))
    requires TextOf(k1, m1) == TextOf(k2, m2)
    ensures k1 == k2 && forall i :: 0 <= i < |k1| ==> m1[k1[i]] == m2[k2[i]]
    decreases |k1|
  {
    hide Over, Sorted;
    if k1 != [] { RestStarts(k1, m1, keys, values); }
    if k2 != [] { RestStarts(k2, m2, keys, values); }
    if k1 != [] && k2 != [] {
      FirstLineDetermines(k1[0], m1[k1[0]], TextOf(k1[1..], m1), k2[0], m2[k2[0]], TextOf(k2[1..], m2), keys, values);
      ReadFromFront(k1[1..], m1, k2[1..], m2, keys, values);
    }
  }

  /** A text is empty or ends with a newline. */
  predicate EndsLine(text: bytes) {
    text != [] ==> text[|text| - 1] == 10
  }

  lemma LastLineDetermines(text1: bytes, k1: bytes, v1: bytes, text2: bytes, k2: bytes, v2: bytes)
    requires text1 + Line(k1, v1) == text2 + Line(k2, v2)
    requires EndsLine(text1) && EndsLine(text2)
    requires 10 !in k1 && 10 !in k2 && 61 !in v1 && 61 !in v2
    ensures text1 == text2 && k1 == k2 && v1 == v2
  {
    var s, t := (text1 + k1) + [61] + v1, (text2 + k2) + [61] + v2;
    assert text1 + Line(k1, v1) == s + [10] && text2 + Line(k2, v2) == t + [10];
    assert s == (s + [10])[..|s|] && t == (t + [10])[..|t|];
    LastSplitIsUnique(text1 + k1, v1, text2 + k2, v2, 61);
    LastLineStarts(text1, k1, text2, k2);
  }

  lemma LastLineStarts(text1: bytes, k1: bytes, text2: bytes, k2: bytes)
    requires text1 + k1 == text2 + k2 && EndsLine(text1) && EndsLine(text2) && 10 !in k1 && 10 !in k2
    ensures text1 == text2 && k1 == k2
  {
    var s, t := text1 + k1, text2 + k2;
    assert text1 != [] ==> s[|text1| - 1] == 10;
    assert text2 != [] ==> t[|text2| - 1] == 10;
    assert forall i :: |text1| <= i < |s| ==> s[i] == k1[i - |text1|];
    assert forall i :: |text2| <= i < |t| ==> t[i] == k2[i - |text2|];
    assert |text1| == |text2|;
    assert text1 == s[..|text1|] && text2 == t[..|text2|] && k1 == s[|text1|..] && k2 == t[|text2|..];
  }

  lemma {:induction false} ReadFromBack(k1: seq<bytes>, m1: map<bytes, bytes>, k2: seq<bytes>, m2: map<bytes, bytes>,
                                        keys: set<byte>, values: set<byte>)
    requires Lists(k1, m1, keys, values) && Lists(k2, m2, keys, values)
    requires 10 !in keys && 61 !in values
    requires TextOf(k1, m1) == TextOf(k2, m2)
    ensures k1 == k2 && forall i :: 0 <= i < |k1| ==> m1[k1[i]] == m2[k2[i]]
    decreases |k1|
  {
    if k1 != [] && k2 != [] {
      var front1, last1, front2, last2 := k1[..|k1| - 1], k1[|k1| - 1], k2[..|k2| - 1], k2[|k2| - 1];
      LastLineDetermines(TextOf(front1, m1), last1, m1[last1], TextOf(front2, m2), last2, m2[last2]);
      ReadFromBack(front1, m1, front2, m2, keys, values);
    }
  }

  /** On maps over legible bytes the digested text is injective. */
  lemma CanonicalTextIsInjective(m1: map<bytes, bytes>, m2: map<bytes, bytes>, text: bytes,
                                 keys: set<byte>, values: set<byte>)
    requires Legible(keys, values) && Over(m1, keys, values) && Over(m2, keys, values)
    requires IsCanonicalText(m1, text) && IsCanonicalText(m2, text)
    ensures m1 == m2
  {
    hide Over, Sorted;
    var k1 :| ListsText(k1, m1, text);
    var k2 :| ListsText(k2, m2, text);
    if 10 !in keys && 61 !in values { ReadFromBack(k1, m1, k2, m2, keys, values); }
    else { ReadFromFront(k1, m1, k2, m2, keys, values); }
    forall k | k in m1 ensures m1[k] == m2[k] {
      assert k in Elements(k1);
      var i :| 0 <= i < |k1| && k1[i] == k;
    }
  }

  lemma LineShift(k: bytes, v: bytes, w: bytes)
    ensures Line(k + [61] + v, w) == Line(k, v + [61] + w)
  {
  }

  lemma LineJoin(k: bytes, v: bytes, l: bytes, w: bytes)
    ensures Line(k, v + [10] + l + [61] + w) == Line(k, v) + Line(l, w)
  {
  }

  lemma LineJoinInKey(k: bytes, v: bytes, l: bytes, w: bytes)
    ensures Line(k + [61] + v + [10] + l, w) == Line(k, v) + Line(l, w)
  {
  }

  /** An '=' may stand in keys or in values, not in both: moving one between a key and
      its value never changes the text, though it always changes the map. */
  lemma EqualsSignInKeyCollides(k: bytes, v: bytes, w: bytes)
    ensures map[k + [61] + v := w] != map[k := v + [61] + w]
    ensures IsCanonicalText(map[k + [61] + v := w], Line(k, v + [61] + w))
    ensures IsCanonicalText(map[k := v + [61] + w], Line(k, v + [61] + w))
  {
    var k', v' := k + [61] + v, v + [61] + w;
    OneLineText(k', w);
    OneLineText(k, v');
    LineShift(k, v, w);
    assert |k'| != |k|;
    assert k in map[k := v'] && k !in map[k' := w];
  }

  /** A newline in a value can forge the line of a second key. */
  lemma NewlineInValueCollides(k: bytes, v: bytes, l: bytes, w: bytes)
    requires Less(k, l)
    ensures map[k := v + [10] + l + [61] + w] != map[k := v, l := w]
    ensures IsCanonicalText(map[k := v + [10] + l + [61] + w], Line(k, v) + Line(l, w))
    ensures IsCanonicalText(map[k := v, l := w], Line(k, v) + Line(l, w))
  {
    var joined := v + [10] + l + [61] + w;
    OneLineText(k, joined);
    LineJoin(k, v, l, w);
    LessTotal(k, l);
    TwoLineText(k, v, l, w);
    assert l in map[k := v, l := w] && l !in map[k := joined];
  }

  /** And so can a newline in a key. */
  lemma NewlineInKeyCollides(k: bytes, v: bytes, l: bytes, w: bytes)
    requires Less(k, l)
    ensures map[k + [61] + v + [10] + l := w] != map[k := v, l := w]
    ensures IsCanonicalText(map[k + [61] + v + [10] + l := w], Line(k, v) + Line(l, w))
    ensures IsCanonicalText(map[k := v, l := w], Line(k, v) + Line(l, w))
  {
    var joined := k + [61] + v + [10] + l;
    OneLineText(joined, w);
    LineJoinInKey(k, v, l, w);
    LessTotal(k, l);
    TwoLineText(k, v, l, w);
    assert |joined| > |k|;
    assert k in map[k := v, l := w] && k !in map[joined := w];
  }

  /** A newline that may stand in both can move between a value and the next key. */
  lemma NewlineMovesBetweenLines(k: bytes, v: bytes, l: bytes, w: bytes)
    requires Less(k, l) && Less(k, [10] + l)
    ensures map[k := v, [10] + l := w] != map[k := v + [10], l := w]
    ensures IsCanonicalText(map[k := v, [10] + l := w], Line(k, v) + Line([10] + l, w))
    ensures IsCanonicalText(map[k := v + [10], l := w], Line(k, v) + Line([10] + l, w))
  {
    LessTotal(k, l);
    LessTotal(k, [10] + l);
    TwoLineText(k, v, [10] + l, w);
    TwoLineText(k, v + [10], l, w);
    NewlineShift(k, v, l, w);
    assert map[k := v, [10] + l := w][k] == v && map[k := v + [10], l := w][k] == v + [10];
    assert |v| != |v + [10]|;
  }

  lemma NewlineShift(k: bytes, v: bytes, l: bytes, w: bytes)
    ensures Line(k, v) + Line([10] + l, w) == Line(k, v + [10]) + Line(l, w)
  {
  }

  lemma EqualsSignInBoth(keys: set<byte>, values: set<byte>)
    requires 61 in keys && 61 in values
    ensures !TellsApart(keys, values)
  {
    EqualsSignInKeyCollides([], [], []);
    assert [] + [61] + [] == [61];
    assert Over(map[[61] := []], keys, values) && Over(map[[] := [61]], keys, values);
  }

  lemma BothInKeys(keys: set<byte>, values: set<byte>)
    requires 61 in keys && 10 in keys
    ensures !TellsApart(keys, values)
  {
    NewlineInKeyCollides([], [], [61], []);
    assert [] + [61] + [] + [10] + [61] == [61, 10, 61];
    assert Over(map[[61, 10, 61] := []], keys, values) && Over(map[[] := [], [61] := []], keys, values);
  }

  lemma BothInValues(keys: set<byte>, values: set<byte>, b: byte)
    requires 61 in values && 10 in values && b in keys && b in values
    ensures !TellsApart(keys, values)
  {
    NewlineInValueCollides([], [], [b], []);
    assert [] + [10] + [b] + [61] + [] == [10, b, 61];
    assert Over(map[[] := [10, b, 61]], keys, values) && Over(map[[] := [], [b] := []], keys, values);
  }

  lemma NewlineInBoth(keys: set<byte>, values: set<byte>)
    requires 10 in keys && 10 in values
    ensures !TellsApart(keys, values)
  {
    NewlineMovesBetweenLines([], [], [10], []);
    assert [10] + [10] == [10, 10] && [] + [10] == [10];
    assert Over(map[[] := [], [10, 10] := []], keys, values) && Over(map[[] := [10], [10] := []], keys, values);
  }

  /** For any two sets of bytes that keys and values may contain: all maps over them
      have different texts exactly if the sets are legible. */
  lemma TellsApartIff(keys: set<byte>, values: set<byte>)
    ensures TellsApart(keys, values) <==> Legible(keys, values)
  {
    if Legible(keys, values) {
      forall m1, m2, text | Over(m1, keys, values) && Over(m2, keys, values)
                            && IsCanonicalText(m1, text) && IsCanonicalText(m2, text)
        ensures m1 == m2
      {
        CanonicalTextIsInjective(m1, m2, text, keys, values);
      }
    } else if 61 in keys && 61 in values {
      EqualsSignInBoth(keys, values);
    } else if 61 in keys && 10 in keys {
      BothInKeys(keys, values);
    } else if 10 in keys && 10 in values {
      NewlineInBoth(keys, values);
    } else {
      var b :| b in keys && b in values;
      BothInValues(keys, values, b);
    }
  }

  lemma TwoLineText(k: bytes, v: bytes, l: bytes, w: bytes)
    requires Less(k, l) && k != l
    ensures IsCanonicalText(map[k := v, l := w], Line(k, v) + Line(l, w))
  {
    var m, ks := map[k := v, l := w], [k, l];
    assert ks[..1] == [k] && [k][..0] == [];
    assert TextOf([k], m) == Line(k, m[k]);
    ElementsSnoc([], k);
    ElementsSnoc([k], l);
    assert [] + [k] == [k] && [k] + [l] == ks;
    assert ListsText(ks, m, Line(k, v) + Line(l, w));
  }

  lemma OneLineText(k: bytes, v: bytes)
    ensures IsCanonicalText(map[k := v], Line(k, v))
  {
    var m := map[k := v];
    assert Elements([k]) == m.Keys by { assert [k][0] == k; }
    assert TextOf([k][..0], m) == [];
    assert ListsText([k], m, Line(k, v));
  }

  // ---- the serializer and the parser that undoes it ----

  /** The seven length-prefixed texts, in order. */
  function Texts(a: AadInput, digest: bytes): seq<bytes> {
    [a.familyId, a.recordId, a.recordType, a.addedBy, a.editedBy, digest, a.deletedAt]
  }

  function LpAll(fields: seq<bytes>): bytes {
    if fields == [] then [] else Lp(fields[0]) + LpAll(fields[1..])
  }

  function Encode(a: AadInput, digest: bytes): bytes {
    PREFIX + [a.verByte] + LpAll(Texts(a, digest)) + Be32(a.plaintextByteCount) + Lp(a.nonce)
  }

  lemma {:induction false} LpAllAppend(fields: seq<bytes>, f: bytes)
    ensures LpAll(fields + [f]) == LpAll(fields) + Lp(f)
  {
    if fields == [] {
      assert LpAll([f][1..]) == [];
    } else {
      LpAllAppend(fields[1..], f);
      assert (fields + [f])[1..] == fields[1..] + [f];
    }
  }

  /** `SerializeAAD`: a buffer appended to field by field. */
  method SerializeAad(a: AadInput, sha256: bytes -> Digest)
    returns (r: Result<bytes, NonceError>, ghost text: bytes)
    ensures r.Success? <==> |a.nonce| == 24
    ensures r.Success? ==> IsCanonicalText(a.updatedAtMap, text) && r.value == Encode(a, sha256(text))
  {
    text := [];
    if |a.nonce| != 24 { return Failure(NonceError), []; }
    var buf := PREFIX;
    buf := buf + [a.verByte];
    ghost var head, done: seq<bytes> := buf, [];
    buf := AppendField(buf, head, done, a.familyId);
    done := done + [a.familyId];
    buf := AppendField(buf, head, done, a.recordId);
    done := done + [a.recordId];
    buf := AppendField(buf, head, done, a.recordType);
    done := done + [a.recordType];
    buf := AppendField(buf, head, done, a.addedBy);
    done := done + [a.addedBy];
    buf := AppendField(buf, head, done, a.editedBy);
    done := done + [a.editedBy];
    var digest := UpdatedAtMapDigest(a.updatedAtMap, sha256);
    ghost var canonical :| IsCanonicalText(a.updatedAtMap, canonical) && digest == sha256(canonical);
    text := canonical;
    buf := AppendField(buf, head, done, digest);
    done := done + [digest];
    if a.deletedAt == [] {
      buf := AppendField(buf, head, done, []);
      done := done + [[]];
    } else {
      buf := AppendField(buf, head, done, a.deletedAt);
      done := done + [a.deletedAt];
    }
    assert done == Texts(a, digest);
    var count := Uint32Bytes(a.plaintextByteCount);
    buf := buf + count;
    var nonceField := LengthPrefixed(a.nonce);
    buf := buf + nonceField;
    r := Success(buf);
  }

  /** `buf = append(buf, lp(field)...)` */
  method AppendField(buf: bytes, ghost head: bytes, ghost before: seq<bytes>, field: bytes)
    returns (r: bytes)
    requires buf == head + LpAll(before)
    ensures r == head + LpAll(before + [field])
  {
    var lp := LengthPrefixed(field);
    r := buf + lp;
    LpAllAppend(before, field);
  }

  datatype Fields = Fields(verByte: byte, texts: seq<bytes>, plaintextByteCount: uint32, nonce: bytes)

  /** Reads `n` length-prefixed fields. */
  function ReadFields(s: bytes, n: nat): Option<(seq<bytes>, bytes)> {
    if n == 0 then Some(([], s))
    else
      match ReadLp(s)
      case None => None
      case Some((field, rest)) =>
        match ReadFields(rest, n - 1)
        case None => None
        case Some((fields, rest')) => Some(([field] + fields, rest'))
  }

  function Parse(s: bytes): Option<Fields> {
    if |s| < 14 || s[..13] != PREFIX then None
    else
      match ReadFields(s[14..], 7)
      case None => None
      case Some((texts, rest)) =>
        if |rest| < 4 then None
        else
          match ReadLp(rest[4..])
          case None => None
          case Some((nonce, tail)) =>
            if tail != [] then None else Some(Fields(s[13], texts, ReadBe32(rest[..4]), nonce))
  }

  lemma {:induction false} ReadFieldsRoundTrip(fields: seq<bytes>, rest: bytes)
    requires forall i :: 0 <= i < |fields| ==> |fields[i]| < TWO_TO_THE_32
    ensures ReadFields(LpAll(fields) + rest, |fields|) == Some((fields, rest))
  {
    if fields == [] {
      assert LpAll(fields) + rest == rest;
    } else {
      var tail := LpAll(fields[1..]) + rest;
      assert LpAll(fields) + rest == Lp(fields[0]) + tail;
      LpRoundTrip(fields[0], tail);
      ReadFieldsRoundTrip(fields[1..], rest);
      assert fields == [fields[0]] + fields[1..];
    }
  }

  ghost predicate Encodable(a: AadInput) {
    && |a.familyId| < TWO_TO_THE_32 && |a.recordId| < TWO_TO_THE_32 && |a.recordType| < TWO_TO_THE_32
    && |a.addedBy| < TWO_TO_THE_32 && |a.editedBy| < TWO_TO_THE_32 && |a.deletedAt| < TWO_TO_THE_32
    && |a.nonce| == 24
  }

  /** The length prefixes make the encoding readable back, field by field. */
  lemma ParseUndoesEncode(a: AadInput, digest: Digest)
    requires Encodable(a)
    ensures Parse(Encode(a, digest))
         == Some(Fields(a.verByte,
                        [a.familyId, a.recordId, a.recordType, a.addedBy, a.editedBy, digest, a.deletedAt],
                        a.plaintextByteCount, a.nonce))
  {
    hide Be32, ReadBe32, Lp, ReadLp, LpAll, ReadFields;
    var s, count, nonce := Encode(a, digest), Be32(a.plaintextByteCount), Lp(a.nonce);
    var texts := Texts(a, digest);
    var rest := count + nonce;
    assert s == PREFIX + [a.verByte] + (LpAll(texts) + rest);
    assert s[..13] == PREFIX && s[13] == a.verByte && s[14..] == LpAll(texts) + rest;
    ReadFieldsRoundTrip(texts, rest);
    assert rest[..4] == count && rest[4..] == nonce + [];
    Be32RoundTrip(a.plaintextByteCount);
    LpRoundTrip(a.nonce, []);
  }

  /** Two inputs with one encoding agree on every field and on the map digest. */
  lemma EncodeIsInjective(a: AadInput, d: Digest, b: AadInput, e: Digest)
    requires Encodable(a) && Encodable(b)
    requires Encode(a, d) == Encode(b, e)
    ensures a.(updatedAtMap := b.updatedAtMap) == b && d == e
  {
    ParseUndoesEncode(a, d);
    ParseUndoesEncode(b, e);
    var s, t := Texts(a, d), Texts(b, e);
    assert s[0] == t[0] && s[1] == t[1] && s[2] == t[2] && s[3] == t[3];
    assert s[4] == t[4] && s[5] == t[5] && s[6] == t[6];
  }

  /** With a hash that keeps the two texts apart, and maps over legible bytes, the
      encoding determines the whole input. */
  lemma EncodingDeterminesInput(a: AadInput, ta: bytes, b: AadInput, tb: bytes, sha256: bytes -> Digest,
                                keys: set<byte>, values: set<byte>)
    requires Encodable(a) && IsCanonicalText(a.updatedAtMap, ta)
    requires Encodable(b) && IsCanonicalText(b.updatedAtMap, tb)
    requires Legible(keys, values) && Over(a.updatedAtMap, keys, values) && Over(b.updatedAtMap, keys, values)
    requires sha256(ta) == sha256(tb) ==> ta == tb
    requires Encode(a, sha256(ta)) == Encode(b, sha256(tb))
    ensures a == b
  {
    EncodeIsInjective(a, sha256(ta), b, sha256(tb));
    CanonicalTextIsInjective(a.updatedAtMap, b.updatedAtMap, ta, keys, values);
  }
}
