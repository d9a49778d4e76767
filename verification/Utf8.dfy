/** UTF-8 as Rust's `str` enforces it. A `string` here is a byte string: each `char` holds one byte. */
module Utf8 {

  predicate IsContinuation(b: char) { 0x80 <= b as int <= 0xBF }

  predicate IsAscii(b: char) { b as int < 0x80 }

  /** The number of bytes a lead byte announces, 0 when it can start no character. */
  function CharLen(lead: char): nat {
    var b := lead as int;
    if b < 0x80 then 1
    else if 0xC2 <= b <= 0xDF then 2
    else if 0xE0 <= b <= 0xEF then 3
    else if 0xF0 <= b <= 0xF4 then 4
    else 0
  }

  /** The first character of `s` is complete and well formed (Unicode Standard, Table 3-7). */
  predicate WellFormedFirst(s: string)
    requires s != ""
  {
    var n := CharLen(s[0]);
    var b := s[0] as int;
    && 0 < n <= |s|
    && (forall k :: 1 <= k < n ==> IsContinuation(s[k]))
    && (b == 0xE0 ==> s[1] as int >= 0xA0)
    && (b == 0xED ==> s[1] as int <= 0x9F)
    && (b == 0xF0 ==> s[1] as int >= 0x90)
    && (b == 0xF4 ==> s[1] as int <= 0x8F)
  }

  predicate Valid(s: string) {
    s == "" || (WellFormedFirst(s) && Valid(s[CharLen(s[0])..]))
  }

  /** `str::is_char_boundary`. */
  predicate IsBoundary(s: string, i: nat) {
    i == 0 || i == |s| || (i < |s| && !IsContinuation(s[i]))
  }

  /** Whether the first character is well formed depends on no byte beyond it. */
  lemma FirstIsLocal(a: string, b: string)
    requires a != "" && b != "" && a[0] == b[0] && CharLen(a[0]) <= |a| && CharLen(a[0]) <= |b|
    requires a[..CharLen(a[0])] == b[..CharLen(a[0])]
    ensures WellFormedFirst(a) == WellFormedFirst(b)
  {
    var n := CharLen(a[0]);
    assert forall k :: 0 <= k < n ==> a[k] == a[..n][k] && b[k] == b[..n][k];
  }

  lemma {:induction false} ValidConcat(a: string, b: string)
    requires Valid(a) && Valid(b)
    ensures Valid(a + b)
  {
    if a == "" {
      assert a + b == b;
    } else {
      FirstWithin(a);
      var n := CharLen(a[0]);
      ValidConcat(a[n..], b);
      ValidPrepend(a, b, n);
    }
  }

  lemma ValidPrepend(a: string, b: string, n: nat)
    requires a != "" && WellFormedFirst(a) && n == CharLen(a[0]) <= |a| && Valid(a[n..] + b)
    ensures Valid(a + b)
  {
    hide WellFormedFirst;
    var s := a + b;
    assert s[0] == a[0] && s[..n] == a[..n] && s[n..] == a[n..] + b;
    FirstIsLocal(a, s);
  }

  lemma FirstWithin(a: string)
    requires a != "" && WellFormedFirst(a)
    ensures 0 < CharLen(a[0]) <= |a|
  {
  }

  /** A valid string cut at a character boundary leaves two valid strings. */
  lemma {:induction false} ValidSplit(a: string, b: string)
    requires Valid(a + b)
    requires b == "" || !IsContinuation(b[0])
    ensures Valid(a) && Valid(b)
  {
    if a == "" {
      assert a + b == b;
    } else if b == "" {
      assert a + b == a;
    } else {
      var n := CharLen(a[0]);
      assert (a + b)[0] == a[0] && (a + b)[|a|] == b[0];
      assert n <= |a|;
      FirstIsLocal(a, a + b);
      assert (a + b)[n..] == a[n..] + b;
      ValidSplit(a[n..], b);
    }
  }

  lemma ValidSlice(s: string, from: nat, to: nat)
    requires Valid(s) && from <= to <= |s|
    requires IsBoundary(s, from) && IsBoundary(s, to)
    ensures Valid(s[from..to])
  {
    assert s == s[..to] + s[to..];
    ValidSplit(s[..to], s[to..]);
    assert s[..to] == s[..from] + s[from..to];
    if from < to {
      ValidSplit(s[..from], s[from..to]);
    }
  }

  /** An ASCII run can be cut out of a valid string: what is left on both sides is valid. */
  lemma AsciiRunSplits(before: string, run: string, after: string)
    requires Valid(before + run + after)
    requires run != "" && forall k :: 0 <= k < |run| ==> IsAscii(run[k])
    ensures Valid(before) && Valid(after)
  {
    assert before + run + after == before + (run + after);
    ValidSplit(before, run + after);
    AsciiPrefixDrops(run, after);
  }

  lemma {:induction false} AsciiPrefixDrops(run: string, after: string)
    requires Valid(run + after)
    requires forall k :: 0 <= k < |run| ==> IsAscii(run[k])
    ensures Valid(after)
  {
    if run == "" {
      assert run + after == after;
    } else {
      assert (run + after)[1..] == run[1..] + after;
      AsciiPrefixDrops(run[1..], after);
    }
  }

  lemma {:induction false} AsciiIsValid(s: string)
    requires forall k :: 0 <= k < |s| ==> IsAscii(s[k])
    ensures Valid(s)
  {
    if s != "" {
      AsciiIsValid(s[1..]);
    }
  }

  lemma ValidSuffix(s: string, i: nat)
    requires Valid(s) && i < |s| && IsBoundary(s, i)
    ensures Valid(s[i..]) && WellFormedFirst(s[i..])
  {
    assert s == s[..i] + s[i..];
    if i > 0 {
      ValidSplit(s[..i], s[i..]);
    }
  }

  /** The end of the character that starts at a boundary is a boundary again. */
  lemma CharEnds(s: string, i: nat)
    requires Valid(s) && i < |s| && IsBoundary(s, i)
    ensures 0 < CharLen(s[i]) && i + CharLen(s[i]) <= |s| && IsBoundary(s, i + CharLen(s[i]))
  {
    ValidSuffix(s, i);
    var n := CharLen(s[i]);
    var rest := s[i..][n..];
    if rest != "" {
      assert WellFormedFirst(rest);
      assert rest[0] == s[i + n];
    }
  }

  /** A Unicode scalar value. */
  predicate IsScalar(v: nat) { v < 0xD800 || 0xE000 <= v <= 0x10FFFF }

  function Byte(v: nat): char
    requires v < 0x100
  {
    v as char
  }

  /** `char::to_string`: the encoding of one scalar value. */
  function Encode(v: nat): (s: string)
    requires IsScalar(v)
    ensures 1 <= |s| <= 4
  {
    if v < 0x80 then [Byte(v)]
    else if v < 0x800 then [Byte(0xC0 + v / 0x40), Tail(v)]
    else if v < 0x10000 then [Byte(0xE0 + v / 0x1000), Tail(v / 0x40), Tail(v)]
    else [Byte(0xF0 + v / 0x40000), Tail(v / 0x1000), Tail(v / 0x40), Tail(v)]
  }

  /** The continuation byte that carries the low six bits of `v`. */
  function Tail(v: nat): (b: char)
    ensures IsContinuation(b) && b as int == 0x80 + v % 0x40
  {
    Byte(0x80 + v % 0x40)
  }

  /** The scalar value of the one character `s` encodes. */
  function ScalarOf(s: string): int
    requires s != "" && CharLen(s[0]) == |s|
  {
    if |s| == 1 then s[0] as int
    else if |s| == 2 then (s[0] as int - 0xC0) * 0x40 + (s[1] as int - 0x80)
    else if |s| == 3 then
      (s[0] as int - 0xE0) * 0x1000 + (s[1] as int - 0x80) * 0x40 + (s[2] as int - 0x80)
    else
      (s[0] as int - 0xF0) * 0x40000 + (s[1] as int - 0x80) * 0x1000
      + (s[2] as int - 0x80) * 0x40 + (s[3] as int - 0x80)
  }

  lemma EncodeLead(v: nat)
    requires IsScalar(v)
    ensures CharLen(Encode(v)[0]) == |Encode(v)|
  {
  }

  /** Every encoding is one well-formed character. */
  lemma EncodeIsValid(v: nat)
    requires IsScalar(v)
    ensures Valid(Encode(v))
  {
    EncodeLead(v);
    var s := Encode(v);
    assert WellFormedFirst(s);
    assert s[|s|..] == "";
  }

  /** Decoding the encoding of a scalar value gives the value back. */
  lemma EncodeDecodes(v: nat)
    requires IsScalar(v)
    ensures CharLen(Encode(v)[0]) == |Encode(v)| && ScalarOf(Encode(v)) == v
  {
    EncodeLead(v);
    assert v == v / 0x40 * 0x40 + v % 0x40;
    if v >= 0x800 {
      var w := v / 0x40;
      assert w == w / 0x40 * 0x40 + w % 0x40 && w / 0x40 == v / 0x1000;
      if v >= 0x10000 {
        var x := v / 0x1000;
        assert x == x / 0x40 * 0x40 + x % 0x40 && x / 0x40 == v / 0x40000;
      }
    }
  }

  lemma TwoBytes(s: string)
    requires s != "" && WellFormedFirst(s) && CharLen(s[0]) == |s| == 2
    ensures 0x80 <= ScalarOf(s) < 0x800 && Encode(ScalarOf(s)) == s
  {
    var v, a, b := ScalarOf(s), s[0] as int - 0xC0, s[1] as int - 0x80;
    assert IsContinuation(s[1]) && v / 0x40 == a && v % 0x40 == b;
  }

  lemma ThreeBytes(s: string)
    requires s != "" && WellFormedFirst(s) && CharLen(s[0]) == |s| == 3
    ensures 0x800 <= ScalarOf(s) < 0x10000 && IsScalar(ScalarOf(s)) && Encode(ScalarOf(s)) == s
  {
    var v, a, b, c := ScalarOf(s), s[0] as int - 0xE0, s[1] as int - 0x80, s[2] as int - 0x80;
    assert IsContinuation(s[1]) && IsContinuation(s[2]);
    assert v / 0x40 == a * 0x40 + b && v % 0x40 == c && v / 0x1000 == a;
    assert s[1] as int == 0x80 + v / 0x40 % 0x40;
  }

  lemma FourBytes(s: string)
    requires s != "" && WellFormedFirst(s) && CharLen(s[0]) == |s| == 4
    ensures 0x10000 <= ScalarOf(s) <= 0x10FFFF && Encode(ScalarOf(s)) == s
  {
    var v, a, b := ScalarOf(s), s[0] as int - 0xF0, s[1] as int - 0x80;
    var c, d := s[2] as int - 0x80, s[3] as int - 0x80;
    assert IsContinuation(s[1]) && IsContinuation(s[2]) && IsContinuation(s[3]);
    assert v / 0x40 == a * 0x1000 + b * 0x40 + c && v % 0x40 == d;
    assert v / 0x1000 == a * 0x40 + b && v / 0x40 % 0x40 == c;
    assert v / 0x40000 == a && v / 0x1000 % 0x40 == b;
  }

  /** A well-formed character is the encoding of its scalar value. */
  lemma CharIsEncoded(s: string)
    requires s != "" && WellFormedFirst(s) && CharLen(s[0]) == |s|
    ensures ScalarOf(s) >= 0 && IsScalar(ScalarOf(s)) && Encode(ScalarOf(s)) == s
  {
    hide Encode, ScalarOf;
    match |s|
    case 1 => OneByte(s);
    case 2 => TwoBytes(s);
    case 3 => ThreeBytes(s);
    case _ => FourBytes(s);
  }

  lemma OneByte(s: string)
    requires s != "" && CharLen(s[0]) == |s| == 1
    ensures 0 <= ScalarOf(s) < 0x80 && Encode(ScalarOf(s)) == s
  {
  }

  lemma FirstAlone(s: string)
    requires s != "" && WellFormedFirst(s) && CharLen(s[0]) <= |s|
    ensures CharLen(s[0]) > 0 && s[..CharLen(s[0])][0] == s[0] && WellFormedFirst(s[..CharLen(s[0])])
  {
    FirstWithin(s);
    var c := s[..CharLen(s[0])];
    assert c[0] == s[0];
    FirstIsLocal(s, c);
  }

  predicate Scalars(vs: seq<nat>) {
    forall i :: 0 <= i < |vs| ==> IsScalar(vs[i])
  }

  function EncodeAll(vs: seq<nat>): string
    requires Scalars(vs)
  {
    if vs == [] then "" else Encode(vs[0]) + EncodeAll(vs[1..])
  }

  lemma EncodeCons(v: nat, vs: seq<nat>)
    requires IsScalar(v) && Scalars(vs)
    ensures Scalars([v] + vs) && EncodeAll([v] + vs) == Encode(v) + EncodeAll(vs)
  {
    hide Encode, IsScalar;
    assert ([v] + vs)[1..] == vs;
  }

  /** The valid strings are the encodings of scalar values, one after the other. */
  lemma {:induction false} ValidMeans(s: string) returns (vs: seq<nat>)
    requires Valid(s)
    ensures Scalars(vs) && EncodeAll(vs) == s
    decreases |s|
  {
    hide ScalarOf, Encode, WellFormedFirst, CharLen, IsScalar, Scalars, EncodeAll;
    if s == "" {
      vs := NoneEncoded();
    } else {
      FirstWithin(s);
      FirstAlone(s);
      var n := CharLen(s[0]);
      var c := s[..n];
      CharIsEncoded(c);
      var rest := ValidMeans(s[n..]);
      vs := [ScalarOf(c)] + rest;
      EncodeCons(ScalarOf(c), rest);
      assert s == c + s[n..];
    }
  }

  lemma NoneEncoded() returns (vs: seq<nat>)
    ensures Scalars(vs) && EncodeAll(vs) == ""
  {
    vs := [];
  }

  lemma {:induction false} EncodedIsValid(vs: seq<nat>)
    requires Scalars(vs)
    ensures Valid(EncodeAll(vs))
  {
    hide Encode, Valid;
    if vs == [] {
      AsciiIsValid("");
    } else {
      EncodeIsValid(vs[0]);
      EncodedIsValid(vs[1..]);
      ValidConcat(Encode(vs[0]), EncodeAll(vs[1..]));
    }
  }

  /** A string is valid exactly if it is the encoding of some scalar values. */
  lemma ValidExactly(s: string)
    ensures Valid(s) <==> exists vs: seq<nat> :: Scalars(vs) && EncodeAll(vs) == s
  {
    hide Valid, EncodeAll, Scalars;
    if Valid(s) {
      var vs := ValidMeans(s);
    }
    if vs: seq<nat> :| Scalars(vs) && EncodeAll(vs) == s {
      EncodedIsValid(vs);
    }
  }
}
