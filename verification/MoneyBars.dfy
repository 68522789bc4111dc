/**
 The shares and bars drawn on the finance pages (frontend/components/admin/AdminMoneyDesk.tsx).
 BigInt division truncates toward zero, `TruncDiv`.
 */
module MoneyBars {
  import opened Wrappers
  import opened Decimals
  import opened Money

  // ---------- shares ----------

  function TruncDiv(n: int, d: int): int
    requires d > 0
  {
    if n >= 0 then n / d else -(-n / d)
  }

  // Tenths of a percent.
  function ShareTenths(part: int, total: int): nat {
    if total <= 0 then 0 else
      var pct := TruncDiv(part * 1000, total);
      if pct <= 0 then 0 else pct
  }

  function ShareWidth(part: Option<string>, whole: Option<string>): Option<string> {
    var total := Cents(whole);
    if total.None? then None
    else if total.value <= 0 then Some("0%")
    else
      var cents := Cents(part);
      if cents.None? then None else
        var pct := TruncDiv(cents.value * 1000, total.value);
        if pct <= 0 then Some("0%") else Some(Print(pct / 10) + "." + Print(pct % 10) + "%")
  }

  // A width read back, in tenths of a percent.
  function ReadTenths(width: string): Option<nat> {
    if width == "" || width[|width| - 1] != '%' then None else
      var number := width[..|width| - 1];
      var w, f := BeforeDot(number), AfterDot(number);
      if !AllDigits(w) || !AllDigits(f) || |f| > 1 then None
      else Some(Value(w) * 10 + if f == "" then 0 else Value(f))
  }

  lemma WidthText(tenths: nat)
    ensures ReadTenths(Print(tenths / 10) + "." + Print(tenths % 10) + "%") == Some(tenths)
  {
    hide Print, Value, ReadTenths;
    PrintValue(tenths / 10);
    PrintValue(tenths % 10);
    OneDigit(tenths % 10);
    ReadsBack(Print(tenths / 10), Print(tenths % 10));
  }

  lemma OneDigit(d: nat)
    requires d < 10
    ensures |Print(d)| == 1
  {
  }

  lemma ReadsBack(w: string, f: string)
    requires AllDigits(w) && AllDigits(f) && |f| == 1
    ensures ReadTenths(w + "." + f + "%") == Some(Value(w) * 10 + Value(f))
  {
    hide Value, BeforeDot, AfterDot;
    DotAfterDigits(w, f);
    var number := w + "." + f;
    assert (number + "%")[..|number|] == number;
  }

  lemma NoWidthText()
    ensures ReadTenths("0%") == Some(0)
  {
    assert "0%"[..1] == "0";
    NoDotInDigits("0");
    ZerosValue("0");
  }

  lemma ShareWidthReads(part: Option<string>, whole: Option<string>)
    requires Cents(part).Some? && Cents(whole).Some?
    ensures ShareWidth(part, whole).Some?
    ensures ReadTenths(ShareWidth(part, whole).value) == Some(ShareTenths(Cents(part).value, Cents(whole).value))
  {
    hide Cents, ReadTenths, Print;
    NoWidthText();
    WidthText(ShareTenths(Cents(part).value, Cents(whole).value));
  }

  // The share itself: the whole part of a thousand times part over total, and nothing of nothing or less.
  lemma ShareIs(part: int, total: int)
    ensures part > 0 && total > 0 ==>
              ShareTenths(part, total) * total <= part * 1000 < (ShareTenths(part, total) + 1) * total
    ensures part <= 0 || total <= 0 ==> ShareTenths(part, total) == 0
  {
    if part > 0 && total > 0 {
      ShareBound(part, total);
    } else if total > 0 {
      assert -(part * 1000) / total >= 0;
    }
  }

  // When a width cannot be drawn because an amount is no number. Of nothing or less, nothing is drawn.
  lemma ShareWidthThrows(part: Option<string>, whole: Option<string>)
    ensures ShareWidth(part, whole).None? <==>
            Cents(whole).None? || (Cents(whole).value > 0 && Cents(part).None?)
    ensures Cents(whole).Some? && Cents(whole).value <= 0 ==> ShareWidth(part, whole) == Some("0%")
  {
    hide Cents;
  }

  function SumShares(parts: seq<int>, total: int): nat {
    if parts == [] then 0 else SumShares(parts[..|parts| - 1], total) + ShareTenths(parts[|parts| - 1], total)
  }

  function SumInts(parts: seq<int>): int {
    if parts == [] then 0 else SumInts(parts[..|parts| - 1]) + parts[|parts| - 1]
  }

  lemma ShareBound(part: int, total: int)
    requires part >= 0 && total > 0
    ensures ShareTenths(part, total) * total <= part * 1000 < (ShareTenths(part, total) + 1) * total
  {
    var n := part * 1000;
    var q := n / total;
    assert n == total * q + n % total;
    assert ShareTenths(part, total) == q;
    assert total * q == q * total && (q + 1) * total == q * total + total;
  }

  lemma Distribute(a: int, b: int, t: int)
    ensures (a + b) * t == a * t + b * t
  {
  }

  // Each share loses less than a tenth.
  lemma {:induction false} SharesBounded(parts: seq<int>, total: int)
    requires total > 0 && forall i :: 0 <= i < |parts| ==> parts[i] >= 0
    ensures SumShares(parts, total) * total <= SumInts(parts) * 1000
    ensures SumInts(parts) * 1000 <= (SumShares(parts, total) + |parts|) * total
    ensures parts != [] ==> SumInts(parts) * 1000 < (SumShares(parts, total) + |parts|) * total
  {
    if parts != [] {
      var front, last := parts[..|parts| - 1], parts[|parts| - 1];
      SharesBounded(front, total);
      ShareBound(last, total);
      Distribute(SumShares(front, total), ShareTenths(last, total), total);
      Distribute(SumShares(front, total) + |front|, ShareTenths(last, total) + 1, total);
    }
  }

  lemma FactorBelow(a: int, b: int, t: int)
    requires t > 0
    ensures a * t <= b * t ==> a <= b
    ensures a * t < b * t ==> a < b
  {
    if a > b { Distribute(b, a - b, t); assert (a - b) * t > 0; }
    if a == b { }
  }

  // Any number of non-negative parts of a positive total: the widths never exceed the bar and fall short of
  // it by less than a tenth of a percent a part.
  lemma SharesFillBar(parts: seq<int>)
    requires parts != [] && SumInts(parts) > 0 && forall i :: 0 <= i < |parts| ==> parts[i] >= 0
    ensures 1000 - |parts| < SumShares(parts, SumInts(parts)) <= 1000
  {
    var total := SumInts(parts);
    var shares := SumShares(parts, total);
    SharesBounded(parts, total);
    FactorBelow(shares, 1000, total);
    FactorBelow(1000, shares + |parts|, total);
  }

  lemma TotalAppend(cents: seq<Option<int>>, last: int)
    requires Total(cents).Some?
    ensures Total(cents + [Some(last)]) == Some(Total(cents).value + last)
  {
    assert (cents + [Some(last)])[..|cents|] == cents;
  }

  lemma SharesAppend(parts: seq<int>, last: int, total: int)
    ensures SumInts(parts + [last]) == SumInts(parts) + last
    ensures SumShares(parts + [last], total) == SumShares(parts, total) + ShareTenths(last, total)
  {
    assert (parts + [last])[..|parts|] == parts;
  }

  lemma ThreeTotals(a: Option<string>, b: Option<string>, c: Option<string>)
    requires Cents(a).Some? && Cents(b).Some? && Cents(c).Some?
    ensures TotalCents([a, b, c]) == Some(Cents(a).value + Cents(b).value + Cents(c).value)
  {
    hide Cents;
    TotalAppend([], Cents(a).value);
    TotalAppend([Cents(a)], Cents(b).value);
    TotalAppend([Cents(a), Cents(b)], Cents(c).value);
    assert [] + [Cents(a)] == [Cents(a)] && [Cents(a)] + [Cents(b)] == [Cents(a), Cents(b)];
    assert [Cents(a), Cents(b)] + [Cents(c)] == [Cents(a), Cents(b), Cents(c)];
    assert seq(3, i requires 0 <= i < 3 => Cents([a, b, c][i])) == [Cents(a), Cents(b), Cents(c)];
  }

  lemma ThreeShares(a: int, b: int, c: int)
    requires a >= 0 && b >= 0 && c >= 0 && a + b + c > 0
    ensures var total := a + b + c; 998 <= ShareTenths(a, total) + ShareTenths(b, total) + ShareTenths(c, total) <= 1000
  {
    var total := a + b + c;
    SharesAppend([], a, total);
    SharesAppend([a], b, total);
    SharesAppend([a, b], c, total);
    assert [] + [a] == [a] && [a] + [b] == [a, b] && [a, b] + [c] == [a, b, c];
    SharesFillBar([a, b, c]);
  }

  // The three-part bar of the platform page, from the texts to the widths drawn.
  lemma PlatformBar(held: string, ready: string, paid: string)
    requires Cents(Some(held)).Some? && Cents(Some(ready)).Some? && Cents(Some(paid)).Some?
    requires Cents(Some(held)).value >= 0 && Cents(Some(ready)).value >= 0 && Cents(Some(paid)).value >= 0
    requires Cents(Some(held)).value + Cents(Some(ready)).value + Cents(Some(paid)).value > 0
    ensures var pool := SumMoney([Some(held), Some(ready), Some(paid)]);
            var w1, w2, w3 := ShareWidth(Some(held), pool), ShareWidth(Some(ready), pool), ShareWidth(Some(paid), pool);
            && w1.Some? && w2.Some? && w3.Some?
            && var t1, t2, t3 := ReadTenths(w1.value), ReadTenths(w2.value), ReadTenths(w3.value);
               && t1.Some? && t2.Some? && t3.Some?
               && 998 <= t1.value + t2.value + t3.value <= 1000
  {
    hide *;
    var a, b, c := Cents(Some(held)).value, Cents(Some(ready)).value, Cents(Some(paid)).value;
    ThreeTotals(Some(held), Some(ready), Some(paid));
    SumMoneyExact([Some(held), Some(ready), Some(paid)]);
    var pool := SumMoney([Some(held), Some(ready), Some(paid)]);
    ShareWidthReads(Some(held), pool);
    ShareWidthReads(Some(ready), pool);
    ShareWidthReads(Some(paid), pool);
    ThreeShares(a, b, c);
  }

  // ---------- bars ----------

  datatype Bucket = Bucket(
    buyerPayments: Option<string>, released: Option<string>, payouts: Option<string>, commission: Option<string>)

  // The four series drawn for a bucket.
  function Series(bucket: Bucket): (amounts: seq<Option<string>>)
    ensures |amounts| == 4
  {
    [bucket.buyerPayments, bucket.released, bucket.payouts, bucket.commission]
  }

  function At(buckets: seq<Bucket>, i: nat, k: nat): Option<int>
    requires i < |buckets| && k < 4
  {
    Cents(Series(buckets[i])[k])
  }

  predicate Before(i: nat, k: nat, toI: nat, toK: nat) {
    i < toI || (i == toI && k < toK)
  }

  // `max` is the highest amount before a place in the chart, or zero if none is positive.
  ghost predicate PeakUpTo(buckets: seq<Bucket>, toI: nat, toK: nat, max: int) {
    && max >= 0
    && (forall i: nat, k: nat :: i < |buckets| && k < 4 && Before(i, k, toI, toK) ==>
          At(buckets, i, k).Some? && At(buckets, i, k).value <= max)
    && (max > 0 ==> exists i: nat, k: nat ::
          i < |buckets| && k < 4 && Before(i, k, toI, toK) && At(buckets, i, k) == Some(max))
  }

  ghost predicate IsPeak(buckets: seq<Bucket>, max: int) {
    PeakUpTo(buckets, |buckets|, 0, max)
  }

  // The peak of the movement chart; None when some amount is not a number.
  method Peak(buckets: seq<Bucket>) returns (max: Option<int>)
    ensures max.Some? <==> forall i: nat, k: nat :: i < |buckets| && k < 4 ==> At(buckets, i, k).Some?
    ensures max.Some? ==> IsPeak(buckets, max.value)
    // spelled out for the four amounts of a bucket
    ensures max.Some? ==> max.value >= 0 && forall i :: 0 <= i < |buckets| ==> AllAtMost(buckets[i], max.value)
    ensures max.Some? && max.value > 0 ==> exists i :: 0 <= i < |buckets| && SomeIs(buckets[i], max.value)
    ensures max.None? ==> exists i :: 0 <= i < |buckets| && SomeUnreadable(buckets[i])
  {
    hide Cents;
    var peak := 0;
    for i := 0 to |buckets|
      invariant PeakUpTo(buckets, i, 0, peak)
    {
      for k := 0 to 4
        invariant PeakUpTo(buckets, i, k, peak)
      {
        var value := Cents(Series(buckets[i])[k]);
        assert value == At(buckets, i, k);
        if value.None? {
          AmountOf(buckets[i], k);
          assert SomeUnreadable(buckets[i]);
          return None;
        }
        PeakStep(buckets, i, k, peak);
        if value.value > peak {
          peak := value.value;
        }
      }
      assert PeakUpTo(buckets, i + 1, 0, peak) by { NextRow(buckets, i, peak); }
    }
    assert forall i: nat, k: nat :: i < |buckets| && k < 4 ==> Before(i, k, |buckets|, 0);
    PeakSpelledOut(buckets, peak);
    return Some(peak);
  }

  ghost predicate AllAtMost(bucket: Bucket, max: int) {
    && Cents(bucket.buyerPayments).Some? && Cents(bucket.buyerPayments).value <= max
    && Cents(bucket.released).Some? && Cents(bucket.released).value <= max
    && Cents(bucket.payouts).Some? && Cents(bucket.payouts).value <= max
    && Cents(bucket.commission).Some? && Cents(bucket.commission).value <= max
  }

  ghost predicate SomeIs(bucket: Bucket, max: int) {
    || Cents(bucket.buyerPayments) == Some(max) || Cents(bucket.released) == Some(max)
    || Cents(bucket.payouts) == Some(max) || Cents(bucket.commission) == Some(max)
  }

  ghost predicate SomeUnreadable(bucket: Bucket) {
    || Cents(bucket.buyerPayments).None? || Cents(bucket.released).None?
    || Cents(bucket.payouts).None? || Cents(bucket.commission).None?
  }

  lemma AmountOf(bucket: Bucket, k: nat)
    requires k < 4
    ensures Series(bucket)[k] in {bucket.buyerPayments, bucket.released, bucket.payouts, bucket.commission}
  {
  }

  lemma PeakSpelledOut(buckets: seq<Bucket>, max: int)
    requires IsPeak(buckets, max)
    ensures max >= 0 && forall i :: 0 <= i < |buckets| ==> AllAtMost(buckets[i], max)
    ensures max > 0 ==> exists i :: 0 <= i < |buckets| && SomeIs(buckets[i], max)
  {
    hide Cents;
    forall i: nat | i < |buckets| ensures AllAtMost(buckets[i], max) {
      assert Before(i, 0, |buckets|, 0) && Before(i, 1, |buckets|, 0);
      assert Before(i, 2, |buckets|, 0) && Before(i, 3, |buckets|, 0);
      assert At(buckets, i, 0).Some? && At(buckets, i, 1).Some? && At(buckets, i, 2).Some? && At(buckets, i, 3).Some?;
    }
    if max > 0 {
      var i: nat, k: nat :| i < |buckets| && k < 4 && Before(i, k, |buckets|, 0) && At(buckets, i, k) == Some(max);
      AmountOf(buckets[i], k);
      assert SomeIs(buckets[i], max);
    }
  }

  lemma PeakStep(buckets: seq<Bucket>, i: nat, k: nat, peak: int)
    requires i < |buckets| && k < 4 && PeakUpTo(buckets, i, k, peak) && At(buckets, i, k).Some?
    ensures var v := At(buckets, i, k).value; PeakUpTo(buckets, i, k + 1, if v > peak then v else peak)
  {
    hide At;
    var v := At(buckets, i, k).value;
    assert Before(i, k, i, k + 1);
    if v <= peak && peak > 0 {
      var a: nat, b: nat :| a < |buckets| && b < 4 && Before(a, b, i, k) && At(buckets, a, b) == Some(peak);
      assert Before(a, b, i, k + 1);
    }
  }

  lemma NextRow(buckets: seq<Bucket>, i: nat, peak: int)
    requires i < |buckets| && PeakUpTo(buckets, i, 4, peak)
    ensures PeakUpTo(buckets, i + 1, 0, peak)
  {
    hide At;
    if peak > 0 {
      var a: nat, b: nat :| a < |buckets| && b < 4 && Before(a, b, i, 4) && At(buckets, a, b) == Some(peak);
      assert Before(a, b, i + 1, 0);
    }
  }

  function Height(cents: int, max: int): int {
    if max <= 0 then 0 else
      var height := TruncDiv(cents * 100, max);
      if height < 0 then 0 else height
  }

  function BarHeight(amount: Option<string>, max: int): Option<string> {
    if max <= 0 then Some("0%") else
      var cents := Cents(amount);
      if cents.None? then None else Some(Print(Height(cents.value, max)) + "%")
  }

  // The height itself: the whole part of a hundred times amount over peak, and nothing of nothing or less.
  lemma HeightIs(cents: int, max: int)
    ensures cents > 0 && max > 0 ==> Height(cents, max) * max <= cents * 100 < (Height(cents, max) + 1) * max
    ensures cents <= 0 || max <= 0 ==> Height(cents, max) == 0
  {
    if max > 0 {
      if cents > 0 {
        var q := cents * 100 / max;
        assert cents * 100 == max * q + cents * 100 % max;
        assert max * q == q * max && (q + 1) * max == q * max + max;
      } else {
        assert -(cents * 100) / max >= 0;
      }
    }
  }

  // It is printed in percent.
  lemma BarHeightReads(amount: Option<string>, max: int)
    ensures max > 0 && Cents(amount).None? <==> BarHeight(amount, max).None?
    ensures max > 0 && Cents(amount).Some? ==>
              var height := BarHeight(amount, max).value;
              && height != "" && height[|height| - 1] == '%' && AllDigits(height[..|height| - 1])
              && Value(height[..|height| - 1]) == Height(Cents(amount).value, max)
    ensures max <= 0 ==> BarHeight(amount, max) == Some("0%")
  {
    hide Cents, Print, Value;
    if max > 0 && Cents(amount).Some? {
      var h := Height(Cents(amount).value, max);
      HeightIs(Cents(amount).value, max);
      HeightNotNegative(Cents(amount).value, max);
      PrintValue(h);
      assert (Print(h) + "%")[..|Print(h)|] == Print(h);
    }
  }

  lemma HeightNotNegative(cents: int, max: int)
    ensures Height(cents, max) >= 0
  {
  }

  lemma HeightMonotone(a: int, b: int, max: int)
    requires a <= b
    ensures 0 <= Height(a, max) <= Height(b, max)
  {
    if max > 0 {
      if a >= 0 {
        DivMonotone(a * 100, b * 100, max);
        assert 0 <= a * 100 / max;
      } else {
        DivMonotone(0, -a * 100, max);
        assert TruncDiv(a * 100, max) <= 0;
      }
    }
  }

  lemma DivMonotone(a: int, b: int, d: int)
    requires 0 <= a <= b && d > 0
    ensures a / d <= b / d
  {
    var q, r := a / d, b / d;
    assert a == d * q + a % d && b == d * r + b % d;
    FactorBelow(q, r + 1, d);
    assert q * d == d * q && (r + 1) * d == d * r + d;
  }

  // With the peak as the maximum, every bar fits, and some bar is full exactly if some amount is positive.
  lemma BarsFit(buckets: seq<Bucket>, max: int)
    requires IsPeak(buckets, max)
    ensures forall i: nat, k: nat :: i < |buckets| && k < 4 ==>
              At(buckets, i, k).Some? && 0 <= Height(At(buckets, i, k).value, max) <= 100
    ensures (exists i: nat, k: nat :: i < |buckets| && k < 4 && At(buckets, i, k).value > 0) <==>
            (exists i: nat, k: nat :: i < |buckets| && k < 4 && BarHeight(Series(buckets[i])[k], max) == Some("100%"))
  {
    forall i: nat, k: nat | i < |buckets| && k < 4
      ensures At(buckets, i, k).Some? && At(buckets, i, k).value <= max
      ensures 0 <= Height(At(buckets, i, k).value, max) <= 100
    {
      assert Before(i, k, |buckets|, 0);
      HeightMonotone(At(buckets, i, k).value, max, max);
      FullHeight(max);
    }
    if max > 0 {
      var i: nat, k: nat :| i < |buckets| && k < 4 && Before(i, k, |buckets|, 0) && At(buckets, i, k) == Some(max);
      FullHeight(max);
      HundredPrinted();
      assert BarHeight(Series(buckets[i])[k], max) == Some("100%");
      assert At(buckets, i, k).value > 0;
    }
  }

  lemma FullHeight(max: int)
    requires max >= 0
    ensures Height(max, max) == if max > 0 then 100 else 0
  {
    if max > 0 {
      assert max * 100 / max == 100;
    }
  }

  lemma HundredPrinted()
    ensures Print(100) + "%" == "100%"
  {
    assert Print(10) == Print(1) + "0" == "10";
    assert Print(100) == Print(10) + "0";
  }
}
