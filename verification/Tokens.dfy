/**
 * Tokens in display text: the pattern of issued tokens, and why tokens, masks and the text around
 * them cannot run into each other (src/engine.rs, `restore_display_text`).
 */
module Tokens {
  import opened Domain
  import Ledger
  import Utf8

  predicate UpperHex(c: char) { '0' <= c <= '9' || 'A' <= c <= 'F' }

  predicate Labelled(s: string, tag: string) {
    |s| >= 5 + |tag| && s[..4] == "[AV_" && s[4..4 + |tag|] == tag && s[4 + |tag|] == '_'
  }

  predicate HexTail(s: string, from: nat) {
    from + 33 <= |s| && s[from + 32] == ']' && forall k :: from <= k < from + 32 ==> UpperHex(s[k])
  }

  /** The length of the token `s` starts with, 0 when it starts with none. */
  function TokenLen(s: string): nat {
    if (Labelled(s, "EMAIL") || Labelled(s, "PHONE")) && HexTail(s, 10) then 43
    else if (Labelled(s, "IPV4") || Labelled(s, "HOST") || Labelled(s, "PATH") || Labelled(s, "TERM"))
      && HexTail(s, 9) then 42
    else 0
  }

  predicate IsToken(t: string) { t != "" && TokenLen(t) == |t| }

  function MaskText(c: DataClass): string { "[REDACTED_" + c.TokenLabel() + "]" }

  type Lookup = string -> Option<string>

  function OrSelf(lookup: Lookup, token: string): string {
    match lookup(token)
    case Some(value) => value
    case None => token
  }

  /** Every token in the text replaced by its value where the lookup has one, from left to right. */
  function Restored(s: string, lookup: Lookup): string
    decreases |s|
  {
    if s == "" then ""
    else if 0 < TokenLen(s) <= |s| then OrSelf(lookup, s[..TokenLen(s)]) + Restored(s[TokenLen(s)..], lookup)
    else [s[0]] + Restored(s[1..], lookup)
  }

  // ----- the pattern

  lemma LabelledLocal(s: string, t: string, tag: string)
    requires 5 + |tag| <= |s| && 5 + |tag| <= |t| && s[..5 + |tag|] == t[..5 + |tag|]
    ensures Labelled(s, tag) <==> Labelled(t, tag)
  {
    var n := 5 + |tag|;
    assert s[..4] == s[..n][..4] && t[..4] == t[..n][..4];
    assert s[4..4 + |tag|] == s[..n][4..4 + |tag|] && t[4..4 + |tag|] == t[..n][4..4 + |tag|];
    assert s[4 + |tag|] == s[..n][4 + |tag|] && t[4 + |tag|] == t[..n][4 + |tag|];
  }

  lemma HexTailLocal(s: string, t: string, from: nat)
    requires from + 33 <= |s| && from + 33 <= |t| && s[..from + 33] == t[..from + 33]
    ensures HexTail(s, from) <==> HexTail(t, from)
  {
    assert forall k :: 0 <= k < from + 33 ==> s[k] == s[..from + 33][k] && t[k] == t[..from + 33][k];
  }

  /** A token match looks at the token's bytes only. */
  lemma TokenLenLocal(s: string, t: string)
    requires |t| <= |s| && s[..|t|] == t
    ensures TokenLen(t) > 0 ==> TokenLen(s) == TokenLen(t)
    ensures TokenLen(s) > 0 && TokenLen(s) <= |t| ==> TokenLen(t) == TokenLen(s)
  {
    hide Labelled, HexTail;
    PatternBounds(s);
    PatternBounds(t);
    if |t| >= 42 {
      assert s[..42] == t[..42] && s[..9] == t[..9] && s[..10] == t[..10];
      HexTailLocal(s, t, 9);
      LabelledLocal(s, t, "EMAIL");
      LabelledLocal(s, t, "PHONE");
      LabelledLocal(s, t, "IPV4");
      LabelledLocal(s, t, "HOST");
      LabelledLocal(s, t, "PATH");
      LabelledLocal(s, t, "TERM");
      LabelsExclude(s);
      LabelsExclude(t);
      if |t| >= 43 {
        assert s[..43] == t[..43];
        HexTailLocal(s, t, 10);
      }
    }
  }

  lemma PatternBounds(s: string)
    ensures HexTail(s, 9) ==> |s| >= 42
    ensures HexTail(s, 10) ==> |s| >= 43
  {
  }

  lemma LabelsExclude(s: string)
    ensures Labelled(s, "EMAIL") || Labelled(s, "PHONE") ==>
              !Labelled(s, "IPV4") && !Labelled(s, "HOST") && !Labelled(s, "PATH") && !Labelled(s, "TERM")
  {
    if Labelled(s, "EMAIL") {
      assert s[4..9][0] == s[4] == 'E';
    }
    if Labelled(s, "PHONE") {
      assert s[4..9][0] == s[4] == 'P' && s[4..9][1] == s[5] == 'H';
    }
    if |s| >= 9 {
      assert s[4..8][0] == s[4] && s[4..8][1] == s[5];
    }
  }

  lemma LabelledChars(s: string, tag: string, k: nat)
    requires Labelled(s, tag) && 1 <= k < 5 + |tag| && '[' !in tag
    ensures s[k] != '['
  {
    if k < 4 {
      assert s[..4][k] == s[k];
    } else if k < 4 + |tag| {
      assert s[4..4 + |tag|][k - 4] == s[k];
      assert tag[k - 4] in tag;
    }
  }

  /** A token opens with a bracket and has no other opening bracket in it. */
  lemma TokenDelimited(s: string)
    requires TokenLen(s) > 0
    ensures TokenLen(s) <= |s| && s[0] == '['
    ensures forall k :: 1 <= k < TokenLen(s) ==> s[k] != '['
  {
    var tag :| tag in ["EMAIL", "PHONE", "IPV4", "HOST", "PATH", "TERM"] && Labelled(s, tag)
      && TokenLen(s) == |tag| + 38 && HexTail(s, 5 + |tag|);
    assert s[..4][0] == s[0];
    forall k | 1 <= k < TokenLen(s)
      ensures s[k] != '['
    {
      if k < 5 + |tag| {
        LabelledChars(s, tag, k);
      }
    }
  }

  // ----- restoration distributes over pieces that open with a bracket

  lemma {:induction false} RestoredConcat(a: string, b: string, lookup: Lookup)
    requires b == "" || b[0] == '['
    ensures Restored(a + b, lookup) == Restored(a, lookup) + Restored(b, lookup)
    decreases |a|
  {
    hide TokenLen;
    if a == "" {
      assert a + b == b;
    } else if b == "" {
      assert a + b == a;
    } else {
      var s := a + b;
      assert s[..|a|] == a && s[|a|] == '[';
      TokenLenLocal(s, a);
      if TokenLen(s) > 0 {
        TokenDelimited(s);
        var n := TokenLen(s);
        assert n <= |a|;
        assert s[..n] == a[..n] && s[n..] == a[n..] + b;
        RestoredConcat(a[n..], b, lookup);
      } else {
        assert s[1..] == a[1..] + b;
        RestoredConcat(a[1..], b, lookup);
      }
    }
  }

  /** A token in front of any text is restored on its own. */
  lemma RestoredToken(t: string, b: string, lookup: Lookup)
    requires IsToken(t)
    ensures Restored(t + b, lookup) == OrSelf(lookup, t) + Restored(b, lookup)
  {
    hide TokenLen;
    var s := t + b;
    assert s[..|t|] == t && s[|t|..] == b;
    TokenLenLocal(s, t);
  }

  /** Text without an opening bracket is left alone, whatever follows it. */
  lemma {:induction false} RestoredPlain(a: string, b: string, lookup: Lookup)
    requires '[' !in a
    ensures Restored(a + b, lookup) == a + Restored(b, lookup)
    decreases |a|
  {
    hide TokenLen;
    if a == "" {
      assert a + b == b;
    } else {
      var s := a + b;
      assert s[0] == a[0] && a[0] in a;
      if TokenLen(s) > 0 {
        TokenDelimited(s);
        assert false;
      }
      assert s[1..] == a[1..] + b;
      RestoredPlain(a[1..], b, lookup);
      assert a == [a[0]] + a[1..];
    }
  }

  /** A mask is no token and hides none. */
  lemma RestoredMask(c: DataClass, b: string, lookup: Lookup)
    ensures Restored(MaskText(c) + b, lookup) == MaskText(c) + Restored(b, lookup)
  {
    hide Restored;
    var tail := "REDACTED_" + c.TokenLabel() + "]";
    assert MaskText(c) == "[" + tail;
    RestoredBracketed(tail, b, lookup);
  }

  lemma PassedOver(s: string, lookup: Lookup)
    requires s != "" && TokenLen(s) == 0
    ensures Restored(s, lookup) == [s[0]] + Restored(s[1..], lookup)
  {
    hide TokenLen;
  }

  lemma RestoredBracketed(tail: string, b: string, lookup: Lookup)
    requires tail != "" && tail[0] == 'R' && '[' !in tail
    ensures Restored("[" + tail + b, lookup) == "[" + tail + Restored(b, lookup)
  {
    hide TokenLen;
    var s := "[" + tail + b;
    assert s[0] == '[' && s[1] == 'R' && s[1..] == tail + b;
    MaskIsNoToken(s);
    PassedOver(s, lookup);
    hide Restored;
    RestoredPlain(tail, b, lookup);
    assert [s[0]] == "[";
    assert "[" + (tail + Restored(b, lookup)) == "[" + tail + Restored(b, lookup);
  }

  lemma MaskIsNoToken(s: string)
    requires |s| > 1 && s[1] == 'R'
    ensures TokenLen(s) == 0
  {
    if |s| >= 4 {
      assert s[..4][1] == s[1];
    }
  }

  // ----- issued tokens match the pattern

  lemma {:induction false} HexEncodeUpper(bytes: seq<nat>)
    requires forall i :: 0 <= i < |bytes| ==> bytes[i] < 0x100
    ensures forall k :: 0 <= k < |Ledger.HexEncode(bytes)| ==> UpperHex(Ledger.HexEncode(bytes)[k])
  {
    if bytes != [] {
      HexEncodeUpper(bytes[..|bytes| - 1]);
    }
  }

  lemma Middle(a: string, b: string, c: string)
    ensures (a + b + c)[..|a|] == a && (a + b + c)[|a|..|a| + |b|] == b && (a + b + c)[|a| + |b|..] == c
  {
  }

  /** An issued text has its label and its tail where the pattern looks for them. */
  lemma IssuedShape(c: DataClass, bytes: Ledger.Block)
    ensures var t, tag := Ledger.TokenText(c, bytes), c.TokenLabel();
            |t| == |tag| + 38 && Labelled(t, tag) && HexTail(t, 5 + |tag|)
  {
    hide Ledger.HexEncode, UpperHex;
    var h, tag := Ledger.HexEncode(bytes), c.TokenLabel();
    hide DataClass.TokenLabel;
    HexEncodeUpper(bytes);
    var t := Ledger.TokenText(c, bytes);
    Middle("[AV_", tag, "_" + h + "]");
    assert t == "[AV_" + tag + ("_" + h + "]");
    assert t[4 + |tag|] == '_';
    assert forall k :: 0 <= k < 32 ==> t[5 + |tag| + k] == h[k];
  }

  lemma IssuedIsToken(c: DataClass, bytes: Ledger.Block)
    requires !c.HardBlock()
    ensures IsToken(Ledger.TokenText(c, bytes))
  {
    hide Ledger.TokenText, Labelled, HexTail;
    IssuedShape(c, bytes);
    LabelsExclude(Ledger.TokenText(c, bytes));
  }

  // ----- every token could have been issued

  function HexValue(c: char): (v: nat)
    requires UpperHex(c)
    ensures v < 16 && Ledger.HexUpper(v) == c
  {
    if c <= '9' then c as int - '0' as int else c as int - 'A' as int + 10
  }

  /** The bytes that are written so. */
  function HexDecode(s: string): (bytes: seq<nat>)
    requires |s| % 2 == 0 && forall k :: 0 <= k < |s| ==> UpperHex(s[k])
    ensures |bytes| == |s| / 2 && forall k :: 0 <= k < |bytes| ==> bytes[k] < 0x100
  {
    if s == "" then []
    else HexDecode(s[..|s| - 2]) + [HexValue(s[|s| - 2]) * 16 + HexValue(s[|s| - 1])]
  }

  lemma {:induction false} HexBack(s: string)
    requires |s| % 2 == 0 && forall k :: 0 <= k < |s| ==> UpperHex(s[k])
    ensures Ledger.HexEncode(HexDecode(s)) == s
  {
    if s != "" {
      var front, bytes := s[..|s| - 2], HexDecode(s);
      HexBack(front);
      var last := bytes[|bytes| - 1];
      assert bytes[..|bytes| - 1] == HexDecode(front);
      assert last / 16 == HexValue(s[|s| - 2]) && last % 16 == HexValue(s[|s| - 1]);
      assert s == front + [s[|s| - 2], s[|s| - 1]];
    }
  }

  /** A token is a label of a restorable class and sixteen bytes in upper-case hexadecimal; every such text is one. */
  lemma TokenIffIssuable(t: string)
    ensures IsToken(t) <==>
            exists c: DataClass, bytes: Ledger.Block :: !c.HardBlock() && t == Ledger.TokenText(c, bytes)
  {
    hide IsToken, Ledger.TokenText;
    if IsToken(t) {
      var c, bytes := IssuableAs(t);
    }
    if c: DataClass, bytes: Ledger.Block :| !c.HardBlock() && t == Ledger.TokenText(c, bytes) {
      IssuedIsToken(c, bytes);
    }
  }

  lemma IssuableAs(t: string) returns (c: DataClass, bytes: Ledger.Block)
    requires IsToken(t)
    ensures !c.HardBlock() && t == Ledger.TokenText(c, bytes)
  {
    hide Ledger.HexEncode, UpperHex, HexDecode;
    var tag := TagOf(t);
    var h := t[5 + |tag|..37 + |tag|];
    assert forall k :: 0 <= k < 32 ==> h[k] == t[5 + |tag| + k];
    HexBack(h);
    bytes := HexDecode(h);
    c := ClassOf(tag);
    assert t[..4] == "[AV_" && t[4..4 + |tag|] == tag;
    assert t == t[..4] + t[4..4 + |tag|] + [t[4 + |tag|]] + h + [t[37 + |tag|]];
  }

  lemma TagOf(t: string) returns (tag: string)
    requires IsToken(t)
    ensures tag in ["EMAIL", "PHONE", "IPV4", "HOST", "PATH", "TERM"]
    ensures Labelled(t, tag) && |t| == |tag| + 38 && HexTail(t, 5 + |tag|)
  {
    tag :| tag in ["EMAIL", "PHONE", "IPV4", "HOST", "PATH", "TERM"] && Labelled(t, tag)
      && TokenLen(t) == |tag| + 38 && HexTail(t, 5 + |tag|);
  }

  function ClassOf(tag: string): (c: DataClass)
    requires tag in ["EMAIL", "PHONE", "IPV4", "HOST", "PATH", "TERM"]
    ensures !c.HardBlock() && c.TokenLabel() == tag
  {
    if tag == "EMAIL" then Email
    else if tag == "PHONE" then Phone
    else if tag == "IPV4" then PrivateIpv4
    else if tag == "HOST" then InternalHostname
    else if tag == "PATH" then HomePath
    else CustomTerm
  }

  // ----- tokens and masks are plain text

  lemma TokenValid(t: string)
    requires IsToken(t)
    ensures Utf8.Valid(t)
  {
    hide Utf8.Valid;
    var tag :| tag in ["EMAIL", "PHONE", "IPV4", "HOST", "PATH", "TERM"] && Labelled(t, tag)
      && TokenLen(t) == |tag| + 38 && HexTail(t, 5 + |tag|);
    forall k | 0 <= k < |t|
      ensures Utf8.IsAscii(t[k])
    {
      if k < 4 {
        assert t[..4][k] == t[k];
      } else if k < 4 + |tag| {
        assert t[4..4 + |tag|][k - 4] == t[k];
      }
    }
    Utf8.AsciiIsValid(t);
  }

  lemma MaskValid(c: DataClass)
    ensures Utf8.Valid(MaskText(c))
  {
    hide Utf8.Valid;
    var open, tag := "[REDACTED_", c.TokenLabel();
    assert forall k :: 0 <= k < |open| ==> Utf8.IsAscii(open[k]);
    assert forall k :: 0 <= k < |tag| ==> Utf8.IsAscii(tag[k]);
    Utf8.AsciiIsValid(MaskText(c));
  }

  // ----- texts without live tokens

  /** No token in the text, wherever it starts, can be looked up. */
  ghost predicate Inert(s: string, lookup: Lookup) {
    forall i {:trigger s[i..]} :: 0 <= i <= |s| && 0 < TokenLen(s[i..]) <= |s| - i ==>
      lookup(s[i..i + TokenLen(s[i..])]).None?
  }

  lemma {:induction false} RestoredInert(s: string, from: nat, to: nat, lookup: Lookup)
    requires Inert(s, lookup) && from <= to <= |s|
    ensures Restored(s[from..to], lookup) == s[from..to]
    decreases |s| - from
  {
    hide TokenLen, Restored, Inert;
    if from < to {
      var t := s[from..to];
      var n := TokenLen(t);
      assert s[from..][..|t|] == t;
      if 0 < n <= |t| {
        InertAt(s, from, t, lookup);
        RestoredFirst(t, lookup);
        RestoredInert(s, from + n, to, lookup);
        assert t[n..] == s[from + n..to] && t == t[..n] + t[n..];
      } else {
        if n > 0 {
          TokenDelimited(t);
        }
        PassedOver(t, lookup);
        RestoredInert(s, from + 1, to, lookup);
        assert t[1..] == s[from + 1..to] && t == [t[0]] + t[1..];
      }
    } else {
      RestoredNothing(lookup);
    }
  }

  lemma RestoredNothing(lookup: Lookup)
    ensures Restored("", lookup) == ""
  {
  }

  lemma RestoredFirst(t: string, lookup: Lookup)
    requires 0 < TokenLen(t) <= |t|
    ensures Restored(t, lookup) == OrSelf(lookup, t[..TokenLen(t)]) + Restored(t[TokenLen(t)..], lookup)
  {
    hide TokenLen;
  }

  lemma InertAt(s: string, from: nat, t: string, lookup: Lookup)
    requires Inert(s, lookup) && from <= |s| && |t| <= |s| - from && s[from..][..|t|] == t && 0 < TokenLen(t) <= |t|
    ensures OrSelf(lookup, t[..TokenLen(t)]) == t[..TokenLen(t)]
  {
    hide TokenLen;
    TokenLenLocal(s[from..], t);
    assert s[from..from + TokenLen(t)] == t[..TokenLen(t)];
  }
}
