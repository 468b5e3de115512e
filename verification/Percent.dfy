/** Percent-encoding normalization (sections 6.2.2.1 and 6.2.2.2 of RFC 3986). */
module Percent {
  import opened Text

  predicate IsHex(c: char) {
    '0' <= c <= '9' || 'A' <= c <= 'F' || 'a' <= c <= 'f'
  }

  function HexValue(c: char): (v: nat)
    requires IsHex(c)
    ensures v < 16
  {
    if '0' <= c <= '9' then c as int - '0' as int
    else if 'A' <= c <= 'F' then c as int - 'A' as int + 10
    else c as int - 'a' as int + 10
  }

  /** The hexadecimal digits and what they stand for. */
  lemma HexExactly(c: char)
    ensures IsHex(c) <==> c in "0123456789ABCDEFabcdef"
    ensures IsHex(c) ==> "0123456789abcdef"[HexValue(c)] == LowerChar(c)
  {}

  predicate IsAlpha(c: char) {
    'A' <= c <= 'Z' || 'a' <= c <= 'z'
  }

  predicate IsUnreserved(c: char) {
    IsAlpha(c) || '0' <= c <= '9' || c in "-._~"
  }

  /** The 66 unreserved characters (section 2.3 of RFC 3986). */
  lemma UnreservedExactly(c: char)
    ensures IsUnreserved(c) <==>
            c in "ABCDEFGHIJKLMNOPQRSTUVWXYZ" || c in "abcdefghijklmnopqrstuvwxyz" || c in "0123456789-._~"
  {}

  /** The octet a triplet stands for. */
  function Octet(hi: char, lo: char): (v: nat)
    requires IsHex(hi) && IsHex(lo)
    ensures v < 256
  {
    16 * HexValue(hi) + HexValue(lo)
  }

  /** `s` starts with a percent triplet. */
  predicate Triplet(s: string) {
    |s| >= 3 && s[0] == '%' && IsHex(s[1]) && IsHex(s[2])
  }

  function Replacement(hi: char, lo: char): string
    requires IsHex(hi) && IsHex(lo)
  {
    var c := Octet(hi, lo) as char;
    if IsUnreserved(c) then [c] else ['%', UpperChar(hi), UpperChar(lo)]
  }

  /** One left-to-right substitution of every triplet. */
  function Normalize(s: string): string {
    if s == "" then ""
    else if Triplet(s) then Replacement(s[1], s[2]) + Normalize(s[3..])
    else [s[0]] + Normalize(s[1..])
  }

  // ---- well-formed text ----

  /** Every percent sign starts a triplet. */
  predicate WellFormed(s: string) {
    forall i :: 0 <= i < |s| && s[i] == '%' ==> Triplet(s[i..])
  }

  lemma WellFormedStep(s: string)
    requires s != "" && WellFormed(s)
    ensures s[0] == '%' ==> Triplet(s) && WellFormed(s[3..])
    ensures s[0] != '%' ==> WellFormed(s[1..])
  {
    assert s[0..] == s;
    var n := if s[0] == '%' then 3 else 1;
    forall i | 0 <= i < |s[n..]| && s[n..][i] == '%'
      ensures Triplet(s[n..][i..])
    {
      assert s[n..][i..] == s[n + i..];
    }
  }

  /** A hex pair that normalization leaves alone. */
  predicate SettledPair(hi: char, lo: char)
    requires IsHex(hi) && IsHex(lo)
  {
    UpperChar(hi) == hi && UpperChar(lo) == lo && !IsUnreserved(Octet(hi, lo) as char)
  }

  /** Every triplet in `s` is upper case and encodes a reserved octet. */
  predicate Normal(s: string) {
    forall i :: 0 <= i < |s| && Triplet(s[i..]) ==> SettledPair(s[i + 1], s[i + 2])
  }

  lemma NormalStep(s: string)
    requires s != ""
    ensures Normal(s) <==> (Triplet(s) ==> SettledPair(s[1], s[2])) && Normal(s[1..])
  {
    var t := s[1..];
    assert s[0..] == s;
    forall i | 0 <= i < |t|
      ensures s[i + 1..] == t[i..] && (Triplet(t[i..]) ==> t[i + 1] == s[i + 2] && t[i + 2] == s[i + 3])
    {}
    if Normal(s) {
      forall i | 0 <= i < |t| && Triplet(t[i..])
        ensures SettledPair(t[i + 1], t[i + 2])
      {
        assert Triplet(s[i + 1..]);
      }
    }
    if (Triplet(s) ==> SettledPair(s[1], s[2])) && Normal(t) {
      forall i | 0 <= i < |s| && Triplet(s[i..])
        ensures SettledPair(s[i + 1], s[i + 2])
      {
        if i > 0 {
          assert Triplet(t[i - 1..]);
        }
      }
    }
  }

  lemma NormalSkipTriplet(s: string)
    requires Triplet(s)
    ensures Normal(s) <==> SettledPair(s[1], s[2]) && Normal(s[3..])
  {
    NormalStep(s);
    NormalStep(s[1..]);
    NormalStep(s[1..][1..]);
    assert s[1..][1..][1..] == s[3..];
  }

  /** No triplet spans the seam when the right-hand text does not start with a hex digit. */
  lemma {:induction false} NormalAppend(a: string, b: string)
    requires b != "" ==> !IsHex(b[0])
    ensures Normal(a + b) <==> Normal(a) && Normal(b)
    decreases |a|
  {
    if a == "" {
      assert a + b == b;
    } else {
      NormalStep(a);
      NormalStep(a + b);
      NormalAppend(a[1..], b);
      assert (a + b)[1..] == a[1..] + b;
      assert forall k :: 0 <= k < |a| ==> (a + b)[k] == a[k];
      assert b != "" ==> (a + b)[|a|] == b[0];
      assert Triplet(a + b) <==> Triplet(a);
    }
  }

  lemma SameAppend(r: string, t: string, a: string, b: string)
    requires |t| <= |b|
    ensures |r| <= |a| ==> |r + t| <= |a + b|
    ensures |r| < |a| ==> r + t != a + b
    ensures |r| == |a| ==> (r + t == a + b <==> r == a && t == b)
  {
    if |r| == |a| && r + t == a + b {
      assert r == (r + t)[..|r|] && a == (a + b)[..|a|];
      assert t == (r + t)[|r|..] && b == (a + b)[|a|..];
    }
  }

  /** Normal text is exactly the text normalization leaves unchanged; no text grows. */
  lemma {:induction false} NormalIsFixedPoint(s: string)
    ensures |Normalize(s)| <= |s|
    ensures Normalize(s) == s <==> Normal(s)
    decreases |s|
  {
    if s == "" {
    } else if Triplet(s) {
      NormalIsFixedPoint(s[3..]);
      NormalSkipTriplet(s);
      var r := Replacement(s[1], s[2]);
      assert s == [s[0], s[1], s[2]] + s[3..];
      SameAppend(r, Normalize(s[3..]), [s[0], s[1], s[2]], s[3..]);
    } else {
      NormalIsFixedPoint(s[1..]);
      NormalStep(s);
      assert s == [s[0]] + s[1..];
      SameAppend([s[0]], Normalize(s[1..]), [s[0]], s[1..]);
    }
  }

  // ---- when one pass is enough ----

  /** The length of the first unit of a text: a triplet or a single character. */
  function UnitLength(t: string): (n: nat)
    requires t != ""
    ensures n <= |t|
  {
    if Triplet(t) then 3 else 1
  }

  /** The character the first unit of a text stands for. */
  function UnitChar(t: string): char
    requires t != ""
  {
    if Triplet(t) then Octet(t[1], t[2]) as char else t[0]
  }

  /** The text starts with a unit that is a hex digit, literally or encoded. */
  predicate HexUnit(t: string) {
    t != "" && IsHex(UnitChar(t))
  }

  /** The text starts with two such units. */
  predicate RawPair(t: string) {
    HexUnit(t) && HexUnit(t[UnitLength(t)..])
  }

  /** The two digits. */
  function PairHi(t: string): (c: char)
    requires RawPair(t)
    ensures IsHex(c)
  {
    UnitChar(t)
  }

  function PairLo(t: string): (c: char)
    requires RawPair(t)
    ensures IsHex(c)
  {
    UnitChar(t[UnitLength(t)..])
  }

  /** What follows the two units. */
  function AfterPair(t: string): (r: string)
    requires RawPair(t)
    ensures |r| < |t|
  {
    t[UnitLength(t)..][UnitLength(t[UnitLength(t)..])..]
  }

  /** `s` starts with a stray percent sign that decoding completes to a triplet. */
  predicate Merges(s: string) {
    s != "" && s[0] == '%' && !Triplet(s) && RawPair(s[1..])
  }

  /** Every stray percent sign of `s` that decoding completes becomes a triplet that is
      canonical as it stands. */
  predicate Settles(s: string) {
    if s == "" then true
    else if Triplet(s) then Settles(s[3..])
    else Settles(s[1..]) && (Merges(s) ==> SettledPair(PairHi(s[1..]), PairLo(s[1..])))
  }

  lemma NormalizeUnit(t: string)
    requires HexUnit(t)
    ensures Normalize(t) == [UnitChar(t)] + Normalize(t[UnitLength(t)..])
  {}

  lemma NormalizeNoUnit(t: string)
    requires !HexUnit(t)
    ensures Normalize(t) == "" || !IsHex(Normalize(t)[0])
  {}

  lemma TwoHeads<T>(a: T, b: T, rest: seq<T>)
    ensures [a] + ([b] + rest) == [a, b] + rest
  {}

  lemma PairNormalized(t: string)
    requires RawPair(t)
    ensures Normalize(t) == [PairHi(t), PairLo(t)] + Normalize(AfterPair(t))
  {
    var rest := t[UnitLength(t)..];
    NormalizeUnit(t);
    NormalizeUnit(rest);
    TwoHeads(UnitChar(t), UnitChar(rest), Normalize(AfterPair(t)));
  }

  /** The raw test for a completed percent sign agrees with the normalized text. */
  lemma PairInNormalized(t: string)
    ensures RawPair(t) ==> Normalize(t) == [PairHi(t), PairLo(t)] + Normalize(AfterPair(t))
    ensures !RawPair(t) ==> |Normalize(t)| < 2 || !IsHex(Normalize(t)[0]) || !IsHex(Normalize(t)[1])
  {
    if RawPair(t) {
      PairNormalized(t);
    } else if HexUnit(t) {
      NormalizeUnit(t);
      NormalizeNoUnit(t[UnitLength(t)..]);
    } else {
      NormalizeNoUnit(t);
    }
  }

  lemma ReplacementFacts(hi: char, lo: char, t: string)
    requires IsHex(hi) && IsHex(lo)
    ensures Normal(Replacement(hi, lo) + t) <==> Normal(t)
  {
    var r := Replacement(hi, lo);
    if |r| == 1 {
      NormalStep(r + t);
      assert (r + t)[1..] == t;
    } else {
      assert Octet(UpperChar(hi), UpperChar(lo)) == Octet(hi, lo);
      assert Triplet(r + t);
      NormalSkipTriplet(r + t);
      assert (r + t)[3..] == t;
    }
  }

  lemma {:induction false} SettlesIffNormal(s: string)
    ensures Settles(s) <==> Normal(Normalize(s))
    decreases |s|
  {
    if s == "" {
    } else if Triplet(s) {
      SettlesIffNormal(s[3..]);
      ReplacementFacts(s[1], s[2], Normalize(s[3..]));
    } else {
      var t := Normalize(s[1..]);
      SettlesIffNormal(s[1..]);
      NormalStep([s[0]] + t);
      assert ([s[0]] + t)[1..] == t;
      PairInNormalized(s[1..]);
      assert Triplet([s[0]] + t) <==> Merges(s);
    }
  }

  /** Normalization is idempotent on `s` exactly when its stray percent signs settle. */
  lemma IdempotentExactly(s: string)
    ensures Normalize(Normalize(s)) == Normalize(s) <==> Settles(s)
  {
    SettlesIffNormal(s);
    NormalIsFixedPoint(Normalize(s));
  }

  /** A stray percent sign can be completed by decoded digits: two passes differ. */
  lemma StrayPercentCounterexample()
    ensures Normalize("%%34%31") == "%41"
    ensures Normalize(Normalize("%%34%31")) == "A"
  {
    var s := "%%34%31";
    assert s[1..] == "%34%31" && s[1..][3..] == "%31" && "%31"[3..] == "";
    assert Normalize("%31") == "1";
    assert Normalize("%34%31") == "4" + Normalize("%31");
    assert Normalize(s) == ['%'] + Normalize(s[1..]);
    assert Normalize("%41") == "A" + Normalize("%41"[3..]);
  }

  lemma {:induction false} WellFormedSettles(s: string)
    requires WellFormed(s)
    ensures Settles(s) && NoMerge(s) && WellFormed(Normalize(s))
    decreases |s|
  {
    if s == "" {
    } else {
      WellFormedStep(s);
      if s[0] == '%' {
        WellFormedSettles(s[3..]);
        WellFormedPrepend(Replacement(s[1], s[2]), Normalize(s[3..]));
      } else {
        WellFormedSettles(s[1..]);
        WellFormedPrepend([s[0]], Normalize(s[1..]));
      }
    }
  }

  lemma WellFormedPrepend(r: string, t: string)
    requires WellFormed(t)
    requires (Triplet(r) && |r| == 3) || '%' !in r
    ensures WellFormed(r + t)
  {
    forall i | 0 <= i < |r + t| && (r + t)[i] == '%'
      ensures Triplet((r + t)[i..])
    {
      if i < |r| {
        assert (r + t)[i] == r[i];
        assert i == 0;
      } else {
        assert (r + t)[i] == t[i - |r|];
        assert (r + t)[i..] == t[i - |r|..];
      }
    }
  }

  // ---- what the text decodes to ----

  /** A decoded unit: an octet, or a non-ASCII character the octet view does not cover. */
  datatype Unit = Byte(v: nat) | Raw(c: char)

  function Decode(s: string): seq<Unit> {
    if s == "" then []
    else if Triplet(s) then [Byte(Octet(s[1], s[2]))] + Decode(s[3..])
    else [if s[0] < 128 as char then Byte(s[0] as int) else Raw(s[0])] + Decode(s[1..])
  }

  /** No stray percent sign of `s` is completed to a triplet by decoded digits. */
  predicate NoMerge(s: string) {
    if s == "" then true
    else if Triplet(s) then NoMerge(s[3..])
    else NoMerge(s[1..]) && !Merges(s)
  }

  lemma DecodeReplacement(hi: char, lo: char, t: string)
    requires IsHex(hi) && IsHex(lo)
    ensures Decode(Replacement(hi, lo) + t) == [Byte(Octet(hi, lo))] + Decode(t)
  {
    var r := Replacement(hi, lo);
    if |r| == 1 {
      assert (r + t)[1..] == t;
    } else {
      assert Triplet(r + t) && (r + t)[3..] == t;
      assert Octet(UpperChar(hi), UpperChar(lo)) == Octet(hi, lo);
    }
  }

  /** Decode `s`, reading a stray percent sign and the digits that complete it as the octet
      they spell together. */
  function DecodeMerged(s: string): seq<Unit>
    decreases |s|
  {
    if s == "" then []
    else if Triplet(s) then [Byte(Octet(s[1], s[2]))] + DecodeMerged(s[3..])
    else if Merges(s) then [Byte(Octet(PairHi(s[1..]), PairLo(s[1..])))] + DecodeMerged(AfterPair(s[1..]))
    else [if s[0] < 128 as char then Byte(s[0] as int) else Raw(s[0])] + DecodeMerged(s[1..])
  }

  /** What normalized text decodes to, for every text. */
  lemma {:induction false} DecodeNormalized(s: string)
    ensures Decode(Normalize(s)) == DecodeMerged(s)
    decreases |s|
  {
    if s == "" {
    } else if Triplet(s) {
      DecodeNormalized(s[3..]);
      DecodeReplacement(s[1], s[2], Normalize(s[3..]));
    } else {
      var t := Normalize(s[1..]);
      var u := [s[0]] + t;
      assert u[1..] == t;
      PairInNormalized(s[1..]);
      if Merges(s) {
        DecodeNormalized(AfterPair(s[1..]));
        assert Triplet(u) && u[3..] == Normalize(AfterPair(s[1..]));
      } else {
        DecodeNormalized(s[1..]);
        assert !Triplet(u);
      }
    }
  }

  lemma DecodeUnit(t: string)
    requires HexUnit(t)
    ensures |Decode(t)| == 1 + |Decode(t[UnitLength(t)..])|
    ensures NoMerge(t) <==> NoMerge(t[UnitLength(t)..])
  {}

  lemma {:induction false} MergedLengths(s: string)
    ensures |DecodeMerged(s)| <= |Decode(s)|
    ensures NoMerge(s) ==> DecodeMerged(s) == Decode(s)
    ensures !NoMerge(s) ==> |DecodeMerged(s)| < |Decode(s)|
    decreases |s|
  {
    if s == "" {
    } else if Triplet(s) {
      MergedLengths(s[3..]);
    } else if Merges(s) {
      var t := s[1..];
      DecodeUnit(t);
      DecodeUnit(t[UnitLength(t)..]);
      MergedLengths(AfterPair(t));
    } else {
      MergedLengths(s[1..]);
    }
  }

  /** The decoded octets survive normalization exactly when no stray percent sign merges. */
  lemma DecodePreservedExactly(s: string)
    ensures Decode(Normalize(s)) == Decode(s) <==> NoMerge(s)
  {
    DecodeNormalized(s);
    MergedLengths(s);
  }

  /** In normal text an encoded unreserved octet cannot occur: what decodes to unreserved
      characters is spelled with them. */
  lemma {:induction false} NormalSpelling(s: string, plain: string)
    requires Normal(s)
    requires forall k :: 0 <= k < |plain| ==> IsUnreserved(plain[k])
    requires Decode(s) == seq(|plain|, k requires 0 <= k < |plain| => Byte(plain[k] as int))
    ensures s == plain
    decreases |s|
  {
    if s == "" {
    } else {
      var units := Decode(s);
      assert units[0] == Byte(plain[0] as int);
      NormalStep(s);
      if Triplet(s) {
        assert false;
      } else {
        assert Decode(s[1..]) == units[1..];
        assert units[1..] == seq(|plain[1..]|, k requires 0 <= k < |plain[1..]| => Byte(plain[1..][k] as int));
        NormalSpelling(s[1..], plain[1..]);
        assert s == [s[0]] + s[1..] && plain == [plain[0]] + plain[1..];
      }
    }
  }

  // ---- delimiters ----

  /** Characters that can take part in neither side of a triplet rewrite. */
  predicate Inert(c: char) {
    !IsUnreserved(c) && c != '%'
  }

  /** Normalization works piece by piece between delimiters, on any text at all. */
  lemma {:induction false} HomomorphicAtDelimiter(a: string, d: char, b: string)
    requires Inert(d)
    ensures Normalize(a + [d] + b) == Normalize(a) + [d] + Normalize(b)
    decreases |a|
  {
    var s := a + [d] + b;
    if a == "" {
      assert s == [d] + b && s[1..] == b;
    } else if Triplet(a) {
      assert Triplet(s) && s[3..] == a[3..] + [d] + b;
      HomomorphicAtDelimiter(a[3..], d, b);
      Assoc(Replacement(a[1], a[2]), Normalize(a[3..]) + [d], Normalize(b));
      Assoc(Replacement(a[1], a[2]), Normalize(a[3..]), [d]);
    } else {
      assert s[|a|] == d;
      assert forall k :: 0 <= k < |a| ==> s[k] == a[k];
      assert !Triplet(s);
      assert s[1..] == a[1..] + [d] + b;
      HomomorphicAtDelimiter(a[1..], d, b);
      Assoc([a[0]], Normalize(a[1..]) + [d], Normalize(b));
      Assoc([a[0]], Normalize(a[1..]), [d]);
    }
  }

  lemma NormalizeStep(a: string, b: string, n: nat)
    requires a != "" && n == (if Triplet(a) then 3 else 1) && (a[0] == '%' ==> Triplet(a))
    ensures var head := if n == 3 then Replacement(a[1], a[2]) else [a[0]];
            && Normalize(a) == head + Normalize(a[n..])
            && Normalize(a + b) == head + Normalize(a[n..] + b)
  {
    assert (a + b)[n..] == a[n..] + b;
    assert forall k :: 0 <= k < n ==> (a + b)[k] == a[k];
    assert Triplet(a + b) <==> Triplet(a);
  }

  /** Normalization distributes over concatenation after well-formed text. */
  lemma {:induction false} Homomorphic(a: string, b: string)
    requires WellFormed(a)
    ensures Normalize(a + b) == Normalize(a) + Normalize(b)
    decreases |a|
  {
    if a == "" {
      assert a + b == b;
    } else {
      WellFormedStep(a);
      var n := if Triplet(a) then 3 else 1;
      NormalizeStep(a, b, n);
      Homomorphic(a[n..], b);
      Assoc(if n == 3 then Replacement(a[1], a[2]) else [a[0]], Normalize(a[n..]), Normalize(b));
    }
  }

  /** Delimiters are neither created nor removed. */
  lemma {:induction false} DelimitersKept(s: string, d: char)
    requires Inert(d)
    ensures Count(Normalize(s), d) == Count(s, d)
    ensures d in Normalize(s) <==> d in s
    decreases |s|
  {
    CountZero(s, d);
    CountZero(Normalize(s), d);
    if s == "" {
    } else if Triplet(s) {
      DelimitersKept(s[3..], d);
      CountAppend(Replacement(s[1], s[2]), Normalize(s[3..]), d);
      CountZero(Replacement(s[1], s[2]), d);
      CountAppend(s[..3], s[3..], d);
      CountZero(s[..3], d);
      assert s == s[..3] + s[3..];
    } else {
      DelimitersKept(s[1..], d);
    }
  }
}
