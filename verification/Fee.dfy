/** Fee estimates: the lower median of ledger samples, and exact XLM strings. */
module Fee {
  import opened Outcomes

  // ----- The median ------------------------------------------------------------------------

  predicate Ascending(s: seq<nat>) {
    forall i, j :: 0 <= i < j < |s| ==> s[i] <= s[j]
  }

  function Below(s: seq<nat>, x: nat): nat {
    if s == [] then 0 else Below(s[..|s| - 1], x) + if s[|s| - 1] < x then 1 else 0
  }

  function Insert(x: nat, s: seq<nat>): seq<nat> {
    if s == [] || x <= s[0] then [x] + s else [s[0]] + Insert(x, s[1..])
  }

  lemma {:induction false} InsertAdds(x: nat, s: seq<nat>)
    ensures multiset(Insert(x, s)) == multiset(s) + multiset{x}
  {
    if s != [] {
      assert s == [s[0]] + s[1..];
      if x > s[0] {
        InsertAdds(x, s[1..]);
      }
    }
  }

  lemma {:induction false} InsertSorts(x: nat, s: seq<nat>)
    requires Ascending(s)
    ensures Ascending(Insert(x, s))
  {
    if s != [] && x > s[0] {
      InsertSorts(x, s[1..]);
      InsertAdds(x, s[1..]);
      var t := Insert(x, s[1..]);
      forall j | 0 <= j < |t| ensures s[0] <= t[j] {
        assert t[j] in multiset(t);
        assert t[j] == x || t[j] in s[1..];
      }
    }
  }

  /** How many samples are below `x`, counted over the multiset. */
  lemma {:induction false} BelowOfMultiset(s: seq<nat>, t: seq<nat>, x: nat)
    requires multiset(s) == multiset(t)
    ensures Below(s, x) == Below(t, x)
  {
    BelowCounts(s, x);
    BelowCounts(t, x);
  }

  function BelowIn(m: multiset<nat>, x: nat): nat {
    if x == 0 then 0 else BelowIn(m, x - 1) + m[x - 1]
  }

  lemma {:induction false} BelowCounts(s: seq<nat>, x: nat)
    ensures Below(s, x) == BelowIn(multiset(s), x)
  {
    if s == [] {
      NoneBelow(x);
    } else {
      BelowCounts(s[..|s| - 1], x);
      assert s == s[..|s| - 1] + [s[|s| - 1]];
      OneMore(multiset(s[..|s| - 1]), s[|s| - 1], x);
    }
  }

  lemma {:induction false} NoneBelow(x: nat)
    ensures BelowIn(multiset{}, x) == 0
  {
    if x > 0 {
      NoneBelow(x - 1);
    }
  }

  lemma {:induction false} OneMore(m: multiset<nat>, y: nat, x: nat)
    ensures BelowIn(m + multiset{y}, x) == BelowIn(m, x) + if y < x then 1 else 0
  {
    if x > 0 {
      OneMore(m, y, x - 1);
    }
  }

  lemma {:induction false} BelowSorted(s: seq<nat>, k: nat)
    requires Ascending(s) && k < |s|
    ensures Below(s, s[k]) <= k < Below(s, s[k] + 1)
  {
    var last := |s| - 1;
    var shorter := s[..last];
    if k < last {
      BelowSorted(shorter, k);
      assert shorter[k] == s[k];
    } else {
      AllBelow(shorter, s[k] + 1);
      BelowAtMost(shorter, s[k]);
    }
  }

  lemma {:induction false} BelowAtMost(s: seq<nat>, x: nat)
    ensures Below(s, x) <= |s|
  {
    if s != [] {
      BelowAtMost(s[..|s| - 1], x);
    }
  }

  lemma {:induction false} AllBelow(s: seq<nat>, x: nat)
    requires forall i :: 0 <= i < |s| ==> s[i] < x
    ensures Below(s, x) == |s|
  {
    if s != [] {
      AllBelow(s[..|s| - 1], x);
    }
  }

  /** The lower median: at most (n - 1) / 2 samples are below it, and more are not above it. */
  predicate IsLowerMedian(samples: seq<nat>, m: nat) {
    samples != [] && m in samples && Below(samples, m) <= (|samples| - 1) / 2 < Below(samples, m + 1)
  }

  lemma {:induction false} BelowMonotone(s: seq<nat>, x: nat, y: nat)
    requires x <= y
    ensures Below(s, x) <= Below(s, y)
  {
    if s != [] {
      BelowMonotone(s[..|s| - 1], x, y);
    }
  }

  /** The lower median does not depend on the order of the samples, and there is only one. */
  lemma LowerMedianUnique(s: seq<nat>, t: seq<nat>, m: nat, n: nat)
    requires multiset(s) == multiset(t) && IsLowerMedian(s, m) && IsLowerMedian(t, n)
    ensures m == n
  {
    BelowOfMultiset(s, t, n);
    BelowOfMultiset(s, t, n + 1);
    assert |s| == |multiset(s)| == |multiset(t)| == |t|;
    if m < n {
      BelowMonotone(s, m + 1, n);
    } else if n < m {
      BelowMonotone(s, n + 1, m);
    }
  }

  method SortSamples(samples: seq<nat>) returns (sorted: seq<nat>)
    ensures Ascending(sorted) && multiset(sorted) == multiset(samples)
  {
    sorted := [];
    for i := 0 to |samples|
      invariant Ascending(sorted) && multiset(sorted) == multiset(samples[..i])
    {
      InsertSorts(samples[i], sorted);
      InsertAdds(samples[i], sorted);
      sorted := Insert(samples[i], sorted);
      assert samples[..i + 1] == samples[..i] + [samples[i]];
    }
    assert samples[..|samples|] == samples;
  }

  method EstimateBaseFee(samples: seq<nat>) returns (r: Option<nat>)
    ensures r.None? <==> samples == []
    ensures r.Some? ==> IsLowerMedian(samples, r.value)
  {
    if samples == [] {
      return None;
    }
    var sorted := SortSamples(samples);
    assert |sorted| == |multiset(sorted)| == |multiset(samples)| == |samples|;
    var mid := (|sorted| - 1) / 2;
    BelowSorted(sorted, mid);
    BelowOfMultiset(sorted, samples, sorted[mid]);
    BelowOfMultiset(sorted, samples, sorted[mid] + 1);
    assert sorted[mid] in multiset(sorted);
    return Some(sorted[mid]);
  }

  // ----- XLM strings --------------------------------------------------------------------------

  const STROOPS_PER_XLM := 10_000_000
  const PLACES := 7

  function Digit(d: nat): char
    requires d < 10
  {
    '0' + d as char
  }

  function DigitValue(c: char): nat {
    if '0' <= c <= '9' then (c - '0') as nat else 0
  }

  function Decimal(n: nat): (s: string)
    ensures s != "" && forall i :: 0 <= i < |s| ==> '0' <= s[i] <= '9'
  {
    if n < 10 then [Digit(n)] else Decimal(n / 10) + [Digit(n % 10)]
  }

  /** The last `places` digits of a number. */
  function Padded(n: nat, places: nat): (s: string)
    ensures |s| == places && forall i :: 0 <= i < |s| ==> '0' <= s[i] <= '9'
  {
    if places == 0 then "" else Padded(n / 10, places - 1) + [Digit(n % 10)]
  }

  function TrimEnd(s: string, c: char): string {
    if s != "" && s[|s| - 1] == c then TrimEnd(s[..|s| - 1], c) else s
  }

  function XlmString(stroops: nat): string {
    var whole, frac := stroops / STROOPS_PER_XLM, stroops % STROOPS_PER_XLM;
    if frac == 0 then Decimal(whole)
    else TrimEnd(TrimEnd(Decimal(whole) + "." + Padded(frac, PLACES), '0'), '.')
  }

  function Value(s: string): nat {
    if s == "" then 0 else 10 * Value(s[..|s| - 1]) + DigitValue(s[|s| - 1])
  }

  function Power10(n: nat): (p: nat)
    ensures p > 0
  {
    if n == 0 then 1 else 10 * Power10(n - 1)
  }

  function DotAt(s: string): (n: nat)
    ensures n <= |s|
  {
    if s == "" || s[0] == '.' then 0 else 1 + DotAt(s[1..])
  }

  /** The stroops a decimal amount of XLM stands for, with at most seven places. */
  function ReadXlm(s: string): nat {
    var dot := DotAt(s);
    if dot == |s| then Value(s) * STROOPS_PER_XLM
    else
      var places := |s| - dot - 1;
      Value(s[..dot]) * STROOPS_PER_XLM + Value(s[dot + 1..]) * Power10(if places <= PLACES then PLACES - places else 0)
  }

  lemma {:induction false} ValueOfDecimal(n: nat)
    ensures Value(Decimal(n)) == n
  {
    if n >= 10 {
      ValueOfDecimal(n / 10);
      var s := Decimal(n);
      assert s[..|s| - 1] == Decimal(n / 10);
    }
  }

  lemma {:induction false} ValueOfPadded(n: nat, places: nat)
    requires n < Power10(places)
    ensures Value(Padded(n, places)) == n
  {
    if places > 0 {
      ValueOfPadded(n / 10, places - 1);
      var s := Padded(n, places);
      assert s[..|s| - 1] == Padded(n / 10, places - 1);
    }
  }

  lemma {:induction false} TrimmedValue(s: string)
    ensures var t := TrimEnd(s, '0'); |t| <= |s| && Value(t) * Power10(|s| - |t|) == Value(s)
    ensures Value(s) > 0 ==> TrimEnd(s, '0') != ""
  {
    if s != "" && s[|s| - 1] == '0' {
      TrimmedValue(s[..|s| - 1]);
    }
  }

  /** Trimming stops inside a tail that does not vanish. */
  lemma {:induction false} TrimTail(head: string, tail: string, c: char)
    requires TrimEnd(tail, c) != ""
    ensures TrimEnd(head + tail, c) == head + TrimEnd(tail, c)
  {
    var s := head + tail;
    if tail[|tail| - 1] == c {
      assert s[..|s| - 1] == head + tail[..|tail| - 1];
      TrimTail(head, tail[..|tail| - 1], c);
    }
  }

  lemma {:induction false} TrimmedEnd(s: string, c: char)
    ensures TrimEnd(s, c) != "" ==> TrimEnd(s, c)[|TrimEnd(s, c)| - 1] != c
    ensures TrimEnd(s, c) <= s
  {
    if s != "" && s[|s| - 1] == c {
      TrimmedEnd(s[..|s| - 1], c);
    }
  }

  lemma {:induction false} DotAfterDigits(whole: string, rest: string)
    requires forall i :: 0 <= i < |whole| ==> whole[i] != '.'
    requires rest == "" || rest[0] == '.'
    ensures DotAt(whole + rest) == |whole|
  {
    if whole != "" {
      assert (whole + rest)[1..] == whole[1..] + rest;
      DotAfterDigits(whole[1..], rest);
    }
  }

  /** The string of an amount with a fraction: the whole part, a dot, and the fraction without trailing zeros. */
  lemma FractionString(stroops: nat)
    requires stroops % STROOPS_PER_XLM != 0
    ensures var frac := TrimEnd(Padded(stroops % STROOPS_PER_XLM, PLACES), '0');
      && XlmString(stroops) == Decimal(stroops / STROOPS_PER_XLM) + "." + frac
      && 1 <= |frac| <= PLACES && '1' <= frac[|frac| - 1] <= '9'
      && Value(frac) * Power10(PLACES - |frac|) == stroops % STROOPS_PER_XLM
  {
    var whole, frac := Decimal(stroops / STROOPS_PER_XLM), stroops % STROOPS_PER_XLM;
    var tail := Padded(frac, PLACES);
    assert Power10(7) == 10_000_000;
    ValueOfPadded(frac, PLACES);
    TrimmedValue(tail);
    TrimmedEnd(tail, '0');
    TrimTail(whole + ".", tail, '0');
    var s := whole + "." + TrimEnd(tail, '0');
    assert whole + "." + tail == (whole + ".") + tail;
    assert s[|s| - 1] == TrimEnd(tail, '0')[|TrimEnd(tail, '0')| - 1];
  }

  /** The XLM string reads back as exactly the stroops it was made from, and a fraction never ends in a zero or a dot. */
  lemma XlmRoundTrip(stroops: nat)
    ensures ReadXlm(XlmString(stroops)) == stroops
    ensures var s := XlmString(stroops); '.' in s ==> '1' <= s[|s| - 1] <= '9'
  {
    var whole := stroops / STROOPS_PER_XLM;
    var s := XlmString(stroops);
    ValueOfDecimal(whole);
    if stroops % STROOPS_PER_XLM == 0 {
      DotAfterDigits(s, "");
      assert s + "" == s;
    } else {
      FractionString(stroops);
      var frac := TrimEnd(Padded(stroops % STROOPS_PER_XLM, PLACES), '0');
      DotAfterDigits(Decimal(whole), "." + frac);
      assert s == Decimal(whole) + ("." + frac);
      assert s[..|Decimal(whole)|] == Decimal(whole) && s[|Decimal(whole)| + 1..] == frac;
    }
  }

  // ----- Estimates --------------------------------------------------------------------------------

  /** Networks whose multiplier is an exact binary fraction. */
  datatype Network = Testnet | Mainnet

  /** The multiplier in quarters: 1.0 and 1.25. */
  function Quarters(n: Network): nat {
    if n.Testnet? then 4 else 5
  }

  /** The base fee times the multiplier, rounded to the nearest stroop with halves rounded up. */
  function Scaled(base: nat, n: Network): (fee: nat)
    ensures n.Testnet? ==> fee == base
    ensures n.Mainnet? ==> -2 <= 5 * base - 4 * fee < 2
  {
    (base * Quarters(n) + 2) / 4
  }

  /** Both units of an estimate agree, and depend only on which samples there are. */
  method Estimate(samples: seq<nat>, n: Network) returns (r: Option<(nat, string)>)
    ensures r.None? <==> samples == []
    ensures r.Some? ==> ReadXlm(r.value.1) == r.value.0
    ensures r.Some? ==> forall t: seq<nat>, m: nat :: multiset(t) == multiset(samples) && IsLowerMedian(t, m) ==> r.value.0 == Scaled(m, n)
  {
    var base := EstimateBaseFee(samples);
    if base.None? {
      return None;
    }
    var stroops := Scaled(base.value, n);
    XlmRoundTrip(stroops);
    forall t: seq<nat>, m: nat | multiset(t) == multiset(samples) && IsLowerMedian(t, m) ensures m == base.value {
      LowerMedianUnique(samples, t, base.value, m);
    }
    return Some((stroops, XlmString(stroops)));
  }
}
