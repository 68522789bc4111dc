/**
 Money text on the finance pages: reading an amount as whole cents and adding amounts up
 (frontend/components/admin/AdminMoneyDesk.tsx, frontend/lib/commerce/format.ts). Where BigInt throws, the
 result is None.
 */
module Money {
  import opened Wrappers
  import opened Decimals

  // ---------- text ----------

  // White space as String.prototype.trim and BigInt see it.
  predicate IsSpace(c: char) {
    || '\U{0009}' <= c <= '\U{000D}' || c == ' ' || c == '\U{00A0}' || c == '\U{1680}'
    || '\U{2000}' <= c <= '\U{200A}' || c == '\U{2028}' || c == '\U{2029}' || c == '\U{202F}' || c == '\U{205F}'
    || c == '\U{3000}' || c == '\U{FEFF}'
  }

  function TrimStart(s: string): string {
    if s != "" && IsSpace(s[0]) then TrimStart(s[1..]) else s
  }

  function TrimEnd(s: string): string {
    if s != "" && IsSpace(s[|s| - 1]) then TrimEnd(s[..|s| - 1]) else s
  }

  function Trim(s: string): string {
    TrimEnd(TrimStart(s))
  }

  // BigInt of a string: optional white space around an optional sign and decimal digits; blank is zero.
  function ParseBigInt(s: string): Option<int> {
    var t := Trim(s);
    if t == "" then Some(0)
    else
      var signed := t[0] == '-' || t[0] == '+';
      var digits := if signed then t[1..] else t;
      if digits == "" || !AllDigits(digits) then None
      else Some(if t[0] == '-' then -(Value(digits) as int) else Value(digits))
  }

  function Negate(v: Option<int>): Option<int> {
    if v.Some? then Some(-v.value) else None
  }

  // ---------- cents ----------

  // The two digits kept of a fraction.
  function Kept(frac: string): string {
    (frac + "00")[..2]
  }

  function CentDigits(whole: string, frac: string): string {
    (if whole == "" then "0" else whole) + Kept(frac)
  }

  function UnsignedCents(body: string): Option<int> {
    ParseBigInt(CentDigits(BeforeDot(body), BeforeDot(AfterDot(body))))
  }

  function Cents(amount: Option<string>): Option<int> {
    var trimmed := Trim(if amount.Some? then amount.value else "0");
    var raw := if trimmed == "" then "0" else trimmed;
    if raw[0] == '-' then Negate(UnsignedCents(raw[1..])) else UnsignedCents(raw)
  }

  // `sumMoney`, from the cents of the amounts.
  function PadTo3(s: string): string {
    if |s| >= 3 then s else seq(3 - |s|, _ => '0') + s
  }

  function Abs(n: int): nat { if n < 0 then -n else n }

  function MoneyText(total: int): string {
    var digits := PadTo3(Print(Abs(total)));
    (if total < 0 then "-" else "") + digits[..|digits| - 2] + "." + digits[|digits| - 2..]
  }

  // The running total; it throws with the first amount that does.
  function Total(cents: seq<Option<int>>): Option<int> {
    if cents == [] then Some(0) else
      var front, last := Total(cents[..|cents| - 1]), cents[|cents| - 1];
      if front.Some? && last.Some? then Some(front.value + last.value) else None
  }

  function TotalCents(amounts: seq<Option<string>>): Option<int> {
    Total(seq(|amounts|, i requires 0 <= i < |amounts| => Cents(amounts[i])))
  }

  function SumMoney(amounts: seq<Option<string>>): Option<string> {
    var total := TotalCents(amounts);
    if total.Some? then Some(MoneyText(total.value)) else None
  }

  // ---------- lemmas about reading ----------

  lemma PlainTrim(s: string)
    requires s == "" || (!IsSpace(s[0]) && !IsSpace(s[|s| - 1]))
    ensures Trim(s) == s
  {
  }

  lemma ParseDigits(s: string)
    requires s != "" && AllDigits(s)
    ensures ParseBigInt(s) == Some(Value(s))
  {
    PlainTrim(s);
  }

  lemma ParseWithCents(w: string, kept: string)
    requires w != "" && AllDigits(w) && AllDigits(kept) && |kept| == 2
    ensures ParseBigInt(w + kept) == Some(Value(w) * 100 + Value(kept))
  {
    ValueConcat(w, kept);
    assert Pow10(2) == 100;
    ParseDigits(w + kept);
  }

  lemma KeptDigits(f: string)
    requires AllDigits(f)
    ensures AllDigits(Kept(f)) && |Kept(f)| == 2
  {
  }

  lemma ParseCentDigits(w: string, f: string)
    requires AllDigits(w) && AllDigits(f)
    ensures AllDigits(Kept(f)) && ParseBigInt(CentDigits(w, f)) == Some(Value(w) * 100 + Value(Kept(f)))
  {
    hide ParseBigInt, Value, Kept;
    KeptDigits(f);
    if w == "" {
      ZerosValue("");
      ZerosValue("0");
      ParseWithCents("0", Kept(f));
    } else {
      ParseWithCents(w, Kept(f));
    }
  }

  lemma UnsignedCentsOfDigits(w: string, f: string)
    requires AllDigits(w) && AllDigits(f)
    ensures UnsignedCents(w + "." + f) == ParseBigInt(CentDigits(w, f))
  {
    DotAfterDigits(w, f);
    NoDotInDigits(f);
  }

  lemma DotTextTrims(w: string, f: string)
    requires AllDigits(w) && AllDigits(f)
    ensures var text := w + "." + f;
            text != "" && text[0] != '-' && Trim(text) == text && Trim("-" + text) == "-" + text
  {
    var text := w + "." + f;
    assert text[0] == (if w == "" then '.' else w[0]);
    assert text[|text| - 1] == (if f == "" then '.' else f[|f| - 1]);
    PlainTrim(text);
    PlainTrim("-" + text);
  }

  // Reading a text that needs no trimming.
  lemma CentsOfTrimmed(text: string)
    requires text != "" && Trim(text) == text
    ensures Cents(Some(text)) == if text[0] == '-' then Negate(UnsignedCents(text[1..])) else UnsignedCents(text)
  {
  }

  lemma SignedCents(w: string, f: string)
    requires AllDigits(w) && AllDigits(f)
    ensures AllDigits(Kept(f))
    ensures Cents(Some(w + "." + f)) == Some(Value(w) * 100 + Value(Kept(f)))
    ensures Cents(Some("-" + (w + "." + f))) == Negate(Cents(Some(w + "." + f)))
  {
    var text := w + "." + f;
    DotTextTrims(w, f);
    assert ("-" + text)[1..] == text;
    CentsOfTrimmed(text);
    CentsOfTrimmed("-" + text);
    UnsignedCentsOfDigits(w, f);
    ParseCentDigits(w, f);
  }

  // A decimal text, with or without a dot, is read exactly down to the cent; a longer fraction is truncated:
  // the cents are the whole part of a hundred times the number written.
  lemma CentsTruncate(w: string, f: string) returns (c: int)
    requires AllDigits(w) && AllDigits(f)
    ensures AllDigits(w + f)
    ensures Cents(Some(w + "." + f)) == Some(c) && Cents(Some("-" + (w + "." + f))) == Some(-c)
    ensures f == "" ==> Cents(Some(w)) == Some(c) && Cents(Some("-" + w)) == Some(-c)
    ensures c * Pow10(|f|) <= 100 * Value(w + f) < (c + 1) * Pow10(|f|)
    ensures |f| <= 2 ==> c * Pow10(|f|) == 100 * Value(w + f)
  {
    hide Cents, Value, Pow10, Kept;
    c := DigitsTruncate(w, f);
    SignedCents(w, f);
    if f == "" {
      DotAddsNothing(w);
    }
  }

  // Without a fraction the dot may be left out.
  lemma DotAddsNothing(w: string)
    requires AllDigits(w)
    ensures Cents(Some(w)) == Cents(Some(w + "." + "")) && Cents(Some("-" + w)) == Cents(Some("-" + (w + "." + "")))
  {
    NoDotInDigits(w);
    DotAfterDigits(w, "");
    DotTextTrims(w, "");
    PlainTrim(w);
    PlainTrim("-" + w);
    CentsOfTrimmed(w + "." + "");
    CentsOfTrimmed("-" + (w + "." + ""));
    CentsOfTrimmed("-" + w);
    assert ("-" + w)[1..] == w && ("-" + (w + "." + ""))[1..] == w + "." + "";
    if w == "" {
      BlankCents();
    } else {
      CentsOfTrimmed(w);
    }
  }

  lemma DigitsTruncate(w: string, f: string) returns (c: int)
    requires AllDigits(w) && AllDigits(f)
    ensures AllDigits(w + f) && AllDigits(Kept(f)) && c == Value(w) * 100 + Value(Kept(f))
    ensures c * Pow10(|f|) <= 100 * Value(w + f) < (c + 1) * Pow10(|f|)
    ensures |f| <= 2 ==> c * Pow10(|f|) == 100 * Value(w + f)
  {
    KeptDigits(f);
    ValueConcat(w, f);
    KeptTruncates(f);
    c := Value(w) * 100 + Value(Kept(f));
    Scaled(Value(w), Value(Kept(f)), Value(f), Pow10(|f|));
  }

  lemma Scaled(w: int, kept: int, f: int, p: int)
    requires kept * p <= 100 * f < (kept + 1) * p
    ensures (w * 100 + kept) * p <= 100 * (w * p + f) < (w * 100 + kept + 1) * p
    ensures kept * p == 100 * f ==> (w * 100 + kept) * p == 100 * (w * p + f)
  {
    assert (w * 100 + kept) * p == 100 * (w * p) + kept * p;
    assert (w * 100 + kept + 1) * p == 100 * (w * p) + (kept + 1) * p;
  }

  lemma KeptTruncates(f: string)
    requires AllDigits(f)
    ensures AllDigits(Kept(f))
    ensures Value(Kept(f)) * Pow10(|f|) <= 100 * Value(f) < (Value(Kept(f)) + 1) * Pow10(|f|)
    ensures |f| <= 2 ==> Value(Kept(f)) * Pow10(|f|) == 100 * Value(f)
  {
    hide Value, Pow10, Kept;
    if |f| <= 2 {
      ShortKept(f);
    } else {
      LongKept(f);
    }
  }

  lemma SmallPowers()
    ensures Pow10(0) == 1 && Pow10(1) == 10 && Pow10(2) == 100
  {
  }

  lemma ShortKept(f: string)
    requires AllDigits(f) && |f| <= 2
    ensures AllDigits(Kept(f)) && Value(Kept(f)) * Pow10(|f|) == 100 * Value(f) && Pow10(|f|) > 0
  {
    var zeros := "00"[|f|..];
    assert Kept(f) == f + zeros;
    hide Value, Kept;
    ZerosValue(zeros);
    ValueConcat(f, zeros);
    SmallPowers();
    hide Pow10;
    if |f| == 0 {
    } else if |f| == 1 {
    } else {
      assert |f| == 2;
    }
  }

  lemma LongKept(f: string)
    requires AllDigits(f) && |f| > 2
    ensures AllDigits(Kept(f)) && Value(Kept(f)) * Pow10(|f|) <= 100 * Value(f) < (Value(Kept(f)) + 1) * Pow10(|f|)
  {
    var h, t, p := HeadAndTail(f);
    Spread(h, t, p);
  }

  lemma HeadAndTail(f: string) returns (h: int, t: int, p: int)
    requires AllDigits(f) && |f| > 2
    ensures AllDigits(Kept(f)) && Value(Kept(f)) == h && Value(f) == h * p + t && Pow10(|f|) == 100 * p && 0 <= t < p
  {
    var head, tail := f[..2], f[2..];
    assert f == head + tail && Kept(f) == head;
    ValueConcat(head, tail);
    ValueBelow(tail);
    HundredTimes(|tail|);
    h, t, p := Value(head), Value(tail), Pow10(|tail|);
  }

  lemma HundredTimes(n: nat)
    ensures Pow10(2 + n) == 100 * Pow10(n)
  {
    assert Pow10(2 + n) == 10 * Pow10(1 + n) == 10 * (10 * Pow10(n));
  }

  lemma Spread(head: int, tail: int, p: int)
    requires 0 <= tail < p
    ensures head * (100 * p) <= 100 * (head * p + tail) < (head + 1) * (100 * p)
  {
    assert head * (100 * p) == 100 * (head * p);
    assert (head + 1) * (100 * p) == 100 * (head * p) + 100 * p;
  }

  lemma NegateUnsigned(text: string)
    requires var t := Trim(text); t == "" || t[0] != '-'
    ensures Cents(Some("-" + Trim(text))) == Negate(Cents(Some(text)))
  {
    var t := Trim(text);
    TrimTwice(text);
    if t == "" {
      assert "-" + t == "-";
      PlainTrim("-");
      BlankCents();
    } else {
      PlainTrim("-" + t);
      assert ("-" + t)[1..] == t;
    }
  }

  // After a minus sign of its own the text goes on with what BigInt takes only at the start: another sign
  // or white space, or an empty whole part whose two digits of cents are white space.
  predicate GoesOnBadly(t: string) {
    && |t| >= 2 && t[0] == '-'
    && (t[1] == '-' || t[1] == '+' || IsSpace(t[1]) || (t[1] == '.' && |t| >= 4 && IsSpace(t[2]) && IsSpace(t[3])))
  }

  // Putting a minus sign in front negates what is read, or throws where the text throws, for every text but
  // those that are read although they go on badly after a minus sign.
  lemma CentsNegate(text: string)
    ensures Cents(Some("-" + Trim(text))) == Negate(Cents(Some(text))) <==>
            !(GoesOnBadly(Trim(text)) && Cents(Some(text)).Some?)
  {
    hide Trim, Cents, GoesOnBadly;
    var t := Trim(text);
    UnsignedGoesOn(t);
    if t == "" || t[0] != '-' {
      NegateUnsigned(text);
    } else {
      assert t == "-" + t[1..];
      NegateSigned(text, t[1..]);
    }
  }

  lemma UnsignedGoesOn(t: string)
    ensures t == "" || t[0] != '-' ==> !GoesOnBadly(t)
  {
  }

  lemma NegateSigned(text: string, b: string)
    requires Trim(text) == "-" + b
    ensures Cents(Some("-" + Trim(text))) == Negate(Cents(Some(text))) <==>
            !(GoesOnBadly("-" + b) && Cents(Some(text)).Some?)
  {
    hide Trim, Cents, UnsignedCents, GoesOnBadly, IsSpace;
    TrimTwice(text);
    SignedTwice(text, b);
    SecondMinus(b);
  }

  lemma SignedTwice(text: string, b: string)
    requires Trim(text) == "-" + b && !IsSpace(Trim(text)[|b|])
    ensures Cents(Some(text)) == Negate(UnsignedCents(b))
    ensures Cents(Some("-" + Trim(text))) == Negate(UnsignedCents("-" + b))
  {
    hide Trim, UnsignedCents;
    var t := "-" + b;
    assert t[1..] == b && ("-" + t)[1..] == t && ("-" + t)[|t|] == t[|b|];
    PlainTrim("-" + t);
    CentsOfTrimmed("-" + t);
  }

  lemma TrimMinus(x: string)
    ensures Trim("-" + x) == "-" + TrimEnd(x)
  {
    assert TrimStart("-" + x) == "-" + x;
    TrimEndMinus(x);
  }

  lemma {:induction false} TrimEndMinus(x: string)
    ensures TrimEnd("-" + x) == "-" + TrimEnd(x)
  {
    if x != "" && IsSpace(x[|x| - 1]) {
      TrimEndMinus(x[..|x| - 1]);
      assert ("-" + x)[..|x|] == "-" + x[..|x| - 1];
    }
  }

  lemma ParseMinus(x: string)
    ensures var d := TrimEnd(x);
            ParseBigInt("-" + x) == if d == "" || !AllDigits(d) then None else Some(-(Value(d) as int))
  {
    hide Trim, Value;
    TrimMinus(x);
    assert ("-" + TrimEnd(x))[1..] == TrimEnd(x);
  }

  // A second minus sign: what BigInt gets to read with and without it.
  lemma SecondMinus(b: string)
    ensures UnsignedCents("-" + b) == Negate(UnsignedCents(b)) <==>
            !(GoesOnBadly("-" + b) && UnsignedCents(b).Some?)
  {
    hide ParseBigInt, TrimEnd;
    var w, kept := BeforeDot(b), Kept(BeforeDot(AfterDot(b)));
    assert ("-" + b)[1..] == b;
    assert "-" + w + kept == "-" + (w + kept);
    assert UnsignedCents("-" + b) == ParseBigInt("-" + (w + kept));
    if w == "" {
      EmptyWhole(kept);
      KeptBlank(b);
      assert w + kept == kept;
      assert UnsignedCents(b) == ParseBigInt("0" + kept);
      assert |b| >= 1 ==> b[0] == '.' && ("-" + b)[1] == '.';
      assert |b| >= 3 ==> ("-" + b)[2] == b[1] && ("-" + b)[3] == b[2];
    } else {
      var x := w + kept;
      assert x[0] == w[0] == b[0] == ("-" + b)[1] && b[0] != '.';
      assert UnsignedCents(b) == ParseBigInt(x);
      SomeWhole(x);
    }
  }

  lemma SomeWhole(x: string)
    requires x != ""
    ensures ParseBigInt("-" + x) == Negate(ParseBigInt(x)) <==>
            !((x[0] == '-' || x[0] == '+' || IsSpace(x[0])) && ParseBigInt(x).Some?)
  {
    hide Value;
    ParseMinus(x);
    TrimEndEnds(x);
    if !IsSpace(x[0]) {
      NoSpaceStays(x);
    }
  }

  lemma {:induction false} NoSpaceStays(x: string)
    requires x != "" && !IsSpace(x[0])
    ensures TrimEnd(x) != "" && TrimEnd(x)[0] == x[0] && Trim(x) == TrimEnd(x)
  {
    if IsSpace(x[|x| - 1]) {
      NoSpaceStays(x[..|x| - 1]);
    }
  }

  lemma EmptyWhole(kept: string)
    requires |kept| == 2
    ensures ParseBigInt("-" + kept) == Negate(ParseBigInt("0" + kept)) <==> !(IsSpace(kept[0]) && IsSpace(kept[1]))
    ensures IsSpace(kept[0]) && IsSpace(kept[1]) ==> ParseBigInt("0" + kept).Some?
  {
    var d := TrimEnd(kept);
    ParseMinus(kept);
    TrimEndZero(kept);
    NoSpaceStays("0" + kept);
    TwoSpaces(kept);
    assert ParseBigInt("0" + kept) == if AllDigits("0" + d) then Some(Value("0" + d) as int) else None;
    assert AllDigits(d) <==> AllDigits("0" + d) by { ZeroDigits(d); }
    if AllDigits(d) {
      ZerosValue("0");
      ValueConcat("0", d);
    }
  }

  lemma ZeroDigits(d: string)
    ensures AllDigits(d) <==> AllDigits("0" + d)
  {
    assert forall i :: 0 <= i < |d| ==> ("0" + d)[i + 1] == d[i];
  }

  lemma TwoSpaces(kept: string)
    requires |kept| == 2
    ensures TrimEnd(kept) == "" <==> IsSpace(kept[0]) && IsSpace(kept[1])
  {
    assert kept[..1][..0] == "";
    assert TrimEnd("") == "";
    assert TrimEnd(kept[..1]) == if IsSpace(kept[0]) then "" else kept[..1];
  }

  lemma {:induction false} TrimEndZero(x: string)
    ensures TrimEnd("0" + x) == "0" + TrimEnd(x)
  {
    if x != "" && IsSpace(x[|x| - 1]) {
      TrimEndZero(x[..|x| - 1]);
      assert ("0" + x)[..|x|] == "0" + x[..|x| - 1];
    }
  }

  // When the kept cents of a text without a whole part are blank.
  lemma KeptBlank(b: string)
    requires BeforeDot(b) == ""
    ensures var kept := Kept(BeforeDot(AfterDot(b)));
            IsSpace(kept[0]) && IsSpace(kept[1]) <==> |b| >= 3 && b[0] == '.' && IsSpace(b[1]) && IsSpace(b[2])
  {
    if b != "" {
      assert b[0] == '.';
      var f := b[1..];
      var frac := BeforeDot(f);
      assert frac == if f == "" || f[0] == '.' then "" else [f[0]] + BeforeDot(f[1..]);
      if f != "" && f[0] != '.' {
        var g := f[1..];
        assert BeforeDot(g) == if g == "" || g[0] == '.' then "" else [g[0]] + BeforeDot(g[1..]);
      }
    }
  }

  lemma BlankCents()
    ensures UnsignedCents("") == UnsignedCents("0") == Some(0)
  {
    NoDotInDigits("");
    NoDotInDigits("0");
    ZerosValue("0");
    ZerosValue("00");
    assert Kept("") == "00" && CentDigits("", "") == CentDigits("0", "");
    ParseCentDigits("0", "");
  }

  lemma {:induction false} TrimTwice(text: string)
    ensures var t := Trim(text); t == "" || (!IsSpace(t[0]) && !IsSpace(t[|t| - 1]))
  {
    TrimStartEnds(text);
    TrimEndEnds(TrimStart(text));
  }

  lemma {:induction false} TrimStartEnds(s: string)
    ensures var t := TrimStart(s); t == "" || !IsSpace(t[0])
  {
    if s != "" {
      TrimStartEnds(s[1..]);
    }
  }

  lemma {:induction false} TrimEndEnds(s: string)
    ensures var t := TrimEnd(s); t == "" || (!IsSpace(t[|t| - 1]) && t[0] == s[0])
  {
    if s != "" {
      TrimEndEnds(s[..|s| - 1]);
    }
  }

  // Such a text: two minus signs are read, as a positive amount, and three are not.
  lemma DoubleMinusNotNegated()
    ensures GoesOnBadly("--1") && Cents(Some("--1")) == Some(100) && Cents(Some("---1")) == None
  {
    assert GoesOnBadly("--1");
    hide Trim, Cents, UnsignedCents, ParseBigInt, GoesOnBadly, BeforeDot, AfterDot;
    MinusDots();
    PlainTrim("--1");
    PlainTrim("---1");
    CentsOfTrimmed("--1");
    CentsOfTrimmed("---1");
    assert "--1"[1..] == "-1" && "---1"[1..] == "--1" && "-" + "1" == "-1" && "-" + "-1" == "--1";
    MinusText("1");
    MinusText("-1");
    assert "-1" + "00" == "-100" && "--1" + "00" == "--100";
    MinusNumbers();
  }

  lemma MinusDots()
    ensures BeforeDot("1") == "1" && AfterDot("1") == "" && BeforeDot("-1") == "-1" && AfterDot("-1") == ""
  {
    NoDotInDigits("1");
    assert "-1"[1..] == "1";
  }

  lemma MinusNumbers()
    ensures ParseBigInt("-100") == Some(-100) && ParseBigInt("--100") == None
  {
    PlainTrim("-100");
    PlainTrim("--100");
    assert "-100"[1..] == "100" && "--100"[1..] == "-100" && "-100"[0] == '-';
    assert "100"[..2] == "10" && "10"[..1] == "1" && "1"[..0] == "";
    assert Value("1") == 1 && Value("10") == 10 && Value("100") == 100;
  }

  lemma MinusText(s: string)
    requires BeforeDot(s) == s && AfterDot(s) == ""
    ensures BeforeDot("-" + s) == "-" + s && AfterDot("-" + s) == ""
    ensures UnsignedCents("-" + s) == ParseBigInt("-" + s + "00")
  {
    assert ("-" + s)[1..] == s;
    assert ("" + "00")[..2] == "00";
  }

  // ---------- sums ----------

  // What sumMoney prints is read back as the total, for every total: a minus sign if it is negative, the
  // whole part and two decimals.
  lemma MoneyTextReads(total: int) returns (w: string, f: string)
    ensures Cents(Some(MoneyText(total))) == Some(total)
    ensures MoneyText(total) == (if total < 0 then "-" else "") + (w + "." + f)
    ensures AllDigits(w) && w != "" && AllDigits(f) && |f| == 2
  {
    hide Cents, Kept, Value, MoneyText;
    w, f := MoneyTextParts(total);
    SignedCents(w, f);
    assert "" + (w + "." + f) == w + "." + f;
  }

  lemma MoneyTextParts(total: int) returns (w: string, f: string)
    ensures AllDigits(w) && AllDigits(f) && w != "" && |f| == 2 && Kept(f) == f
    ensures Value(w) * 100 + Value(f) == Abs(total)
    ensures MoneyText(total) == if total < 0 then "-" + (w + "." + f) else w + "." + f
  {
    var digits := PadTo3(Print(Abs(total)));
    PaddedValue(Abs(total));
    w, f := digits[..|digits| - 2], digits[|digits| - 2..];
    assert digits == w + f;
    SplitCents(digits, w, f);
  }

  lemma SplitCents(digits: string, w: string, f: string)
    requires AllDigits(digits) && digits == w + f && |f| == 2
    ensures AllDigits(w) && AllDigits(f) && Kept(f) == f && Value(digits) == Value(w) * 100 + Value(f)
  {
    assert AllDigits(w) by {
      assert forall i :: 0 <= i < |w| ==> w[i] == digits[i];
    }
    assert AllDigits(f) by {
      assert forall i :: 0 <= i < |f| ==> f[i] == digits[|w| + i];
    }
    ValueConcat(w, f);
    HundredTimes(0);
    assert Kept(f) == f;
  }

  lemma PaddedValue(n: nat)
    ensures var digits := PadTo3(Print(n)); |digits| >= 3 && AllDigits(digits) && Value(digits) == n
  {
    var printed := Print(n);
    var zeros := seq(if |printed| >= 3 then 0 else 3 - |printed|, _ => '0');
    assert PadTo3(printed) == zeros + printed;
    PrintValue(n);
    ZerosValue(zeros);
    ValueConcat(zeros, printed);
  }

  // So the pool shown is exactly the sum of its parts.
  lemma SumMoneyExact(amounts: seq<Option<string>>)
    ensures TotalCents(amounts).Some? ==> SumMoney(amounts).Some? && Cents(SumMoney(amounts)) == TotalCents(amounts)
    ensures TotalCents(amounts).None? ==> SumMoney(amounts).None?
  {
    if TotalCents(amounts).Some? {
      var w, f := MoneyTextReads(TotalCents(amounts).value);
    }
  }

  // Said of the printed sums: no amounts give 0.00, and one amount more adds what it reads as, or throws if
  // it does not read.
  lemma SumMoneyAdds(amounts: seq<Option<string>>, last: Option<string>)
    ensures SumMoney([]) == Some("0.00")
    ensures SumMoney(amounts + [last]).Some? <==> SumMoney(amounts).Some? && Cents(last).Some?
    ensures SumMoney(amounts + [last]).Some? ==>
              && Cents(SumMoney(amounts + [last])).Some? && Cents(SumMoney(amounts)).Some?
              && Cents(SumMoney(amounts + [last])).value == Cents(SumMoney(amounts)).value + Cents(last).value
  {
    hide Cents, MoneyText;
    NoMoney();
    SumMoneyExact(amounts);
    SumMoneyExact(amounts + [last]);
    TotalNext(amounts, last);
  }

  lemma NoMoney()
    ensures SumMoney([]) == Some("0.00")
  {
    assert seq(0, i requires 0 <= i < 0 => Cents(None)) == [];
    assert TotalCents([]) == Some(0);
    assert Print(0) == "0";
    assert PadTo3("0") == "000";
    assert "000"[..1] == "0" && "000"[1..] == "00";
    assert "" + "0" + "." + "00" == "0.00";
    assert MoneyText(0) == "0.00";
  }

  lemma TotalNext(amounts: seq<Option<string>>, last: Option<string>)
    ensures TotalCents(amounts + [last]).Some? <==> TotalCents(amounts).Some? && Cents(last).Some?
    ensures TotalCents(amounts + [last]).Some? ==>
              TotalCents(amounts + [last]).value == TotalCents(amounts).value + Cents(last).value
  {
    hide Cents;
    var all := amounts + [last];
    var cents := seq(|all|, i requires 0 <= i < |all| => Cents(all[i]));
    assert cents[..|amounts|] == seq(|amounts|, i requires 0 <= i < |amounts| => Cents(amounts[i]));
    assert cents[|cents| - 1] == Cents(last);
  }

  // ---------- white space ----------

  predicate Blank(s: string) {
    forall i :: 0 <= i < |s| ==> IsSpace(s[i])
  }

  lemma {:induction false} TrimStartSkips(a: string, s: string)
    requires Blank(a)
    ensures TrimStart(a + s) == TrimStart(s)
  {
    if a == "" {
      assert a + s == s;
    } else {
      TrimStartSkips(a[1..], s);
      assert (a + s)[1..] == a[1..] + s;
    }
  }

  lemma {:induction false} TrimEndSkips(s: string, b: string)
    requires Blank(b)
    ensures TrimEnd(s + b) == TrimEnd(s)
  {
    if b == "" {
      assert s + b == s;
    } else {
      TrimEndSkips(s, b[..|b| - 1]);
      assert (s + b)[..|s + b| - 1] == s + b[..|b| - 1];
    }
  }

  lemma {:induction false} TrimStartBefore(s: string, b: string)
    requires Blank(b)
    ensures TrimEnd(TrimStart(s + b)) == TrimEnd(TrimStart(s))
  {
    if s == "" {
      assert s + b == b + "";
      TrimStartSkips(b, "");
    } else if IsSpace(s[0]) {
      TrimStartBefore(s[1..], b);
      assert (s + b)[1..] == s[1..] + b;
    } else {
      TrimEndSkips(s, b);
      assert (s + b)[0] == s[0];
    }
  }

  // BigInt of blank text is zero.
  lemma BlankIsZero(s: string)
    requires Blank(s)
    ensures ParseBigInt(s) == Some(0)
  {
    TrimStartSkips(s, "");
    assert s + "" == s;
  }

  // White space around an amount does not matter; an absent or blank amount is zero.
  lemma CentsIgnoresSpace(a: string, text: string, b: string)
    requires Blank(a) && Blank(b)
    ensures Cents(Some(a + text + b)) == Cents(Some(text))
    ensures Cents(None) == Some(0) && Cents(Some(a)) == Some(0)
  {
    assert a + text + b == a + (text + b);
    TrimStartSkips(a, text + b);
    TrimStartBefore(text, b);
    TrimStartSkips(a, "");
    assert a + "" == a;
    BlankCents();
    PlainTrim("0");
  }
}
