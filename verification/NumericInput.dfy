/**
 Cleaning what is typed or pasted into a number field (frontend/lib/numericInput.ts), and the field that
 uses it (frontend/components/ui/FormField.tsx).

 `slice` accepts a negative end, which counts from the end of the string, so `maxDecimals` is any integer.
 */
module NumericInput {
  import opened Decimals

  datatype Kind = Integer | Decimal

  // ---------- the function ----------

  predicate IsComma(c: char) { c == ',' }

  predicate IsDot(c: char) { c == '.' }

  predicate NotNumeric(c: char) { !IsDigit(c) && c != '.' }

  // replace with a global one-character pattern and the empty string
  function Without(s: string, drop: char -> bool): string {
    if s == "" then "" else
      var last := s[|s| - 1];
      Without(s[..|s| - 1], drop) + if drop(last) then "" else [last]
  }

  // s.slice(0, end)
  function SliceTo(s: string, end: int): string {
    if end < 0 then (if |s| + end < 0 then "" else s[..|s| + end])
    else if end > |s| then s else s[..end]
  }

  function Cleaned(raw: string): string {
    Without(Without(raw, IsComma), NotNumeric)
  }

  // The fraction digits kept.
  function Frac(rest: string, m: int): string {
    SliceTo(Without(rest, IsDot), m)
  }

  // What is done to the digits and dots that are left, in a decimal field.
  function Limit(next: string, maxDecimals: int): string {
    if '.' !in next then next else
      var whole := BeforeDot(next);
      var frac := Frac(AfterDot(next), maxDecimals);
      if |frac| == 0 && next[|next| - 1] == '.' then whole + "."
      else if |frac| > 0 then whole + "." + frac else whole
  }

  function Sanitize(raw: string, kind: Kind, maxDecimals: int): string {
    if raw == "" then "" else
      var next := Cleaned(raw);
      if kind == Integer then Without(next, IsDot) else Limit(next, maxDecimals)
  }

  // ---------- removing characters ----------

  lemma {:induction false} WithoutConcat(a: string, b: string, drop: char -> bool)
    ensures Without(a + b, drop) == Without(a, drop) + Without(b, drop)
  {
    if b == "" {
      assert a + b == a;
    } else {
      WithoutConcat(a, b[..|b| - 1], drop);
      assert (a + b)[..|a + b| - 1] == a + b[..|b| - 1];
    }
  }

  lemma {:induction false} WithoutAll(s: string, drop: char -> bool)
    ensures forall i :: 0 <= i < |Without(s, drop)| ==> !drop(Without(s, drop)[i]) && Without(s, drop)[i] in s
  {
    if s != "" {
      WithoutAll(s[..|s| - 1], drop);
    }
  }

  lemma {:induction false} WithoutNone(s: string, drop: char -> bool)
    requires forall i :: 0 <= i < |s| ==> !drop(s[i])
    ensures Without(s, drop) == s
  {
    if s != "" {
      WithoutNone(s[..|s| - 1], drop);
    }
  }

  lemma CleanedConcat(a: string, b: string)
    ensures Cleaned(a + b) == Cleaned(a) + Cleaned(b)
  {
    WithoutConcat(a, b, IsComma);
    WithoutConcat(Without(a, IsComma), Without(b, IsComma), NotNumeric);
  }

  lemma CleanedPlain(raw: string)
    ensures Plain(Cleaned(raw))
  {
    WithoutAll(Without(raw, IsComma), NotNumeric);
  }

  lemma CleanedAgain(s: string)
    requires Plain(s)
    ensures Cleaned(s) == s
  {
    WithoutNone(s, IsComma);
    WithoutNone(s, NotNumeric);
  }

  lemma DigitsOnly(s: string)
    requires Plain(s)
    ensures AllDigits(Without(s, IsDot))
  {
    WithoutAll(s, IsDot);
  }

  // ---------- the first dot ----------

  lemma {:induction false} FirstDot(s: string) returns (w: string, f: string)
    requires '.' in s
    ensures w == BeforeDot(s) && f == AfterDot(s)
    ensures s == w + "." + f && '.' !in w
  {
    w, f := BeforeDot(s), AfterDot(s);
    if s[0] == '.' {
      assert s == "." + s[1..];
    } else {
      assert '.' in s[1..];
      var w1, f1 := FirstDot(s[1..]);
      assert s == [s[0]] + (w1 + "." + f1);
    }
  }

  lemma {:induction false} FirstDotOf(w: string, rest: string)
    requires '.' !in w
    ensures BeforeDot(w + "." + rest) == w && AfterDot(w + "." + rest) == rest
  {
    var s := w + "." + rest;
    if w == "" {
      assert s == "." + rest;
    } else {
      FirstDotOf(w[1..], rest);
      assert s[1..] == w[1..] + "." + rest;
    }
  }

  // With at least one decimal allowed, a dot is always kept, and the digits after it up to the limit.
  lemma LimitIs(w: string, rest: string, m: int)
    requires m >= 1 && '.' !in w
    ensures Limit(w + "." + rest, m) == w + "." + Frac(rest, m)
  {
    hide BeforeDot, AfterDot;
    var next := w + "." + rest;
    FirstDotOf(w, rest);
    assert next[|w|] == '.';
    if rest == "" {
      assert next[|next| - 1] == '.';
    } else {
      assert next[|next| - 1] == rest[|rest| - 1];
    }
  }

  lemma FracHasNoDot(rest: string, m: int)
    ensures Without(Frac(rest, m), IsDot) == Frac(rest, m) && '.' !in Frac(rest, m)
    ensures Plain(rest) ==> Plain(Frac(rest, m))
  {
    hide Without;
    WithoutAll(rest, IsDot);
    assert forall c :: c in Frac(rest, m) ==> c in Without(rest, IsDot);
    WithoutNone(Frac(rest, m), IsDot);
  }

  lemma FracAgain(rest: string, m: int)
    requires m >= 0
    ensures Frac(Frac(rest, m), m) == Frac(rest, m)
  {
    hide Without;
    FracHasNoDot(rest, m);
  }

  lemma PlainParts(w: string, f: string)
    ensures Plain(w + "." + f) <==> Plain(w) && Plain(f)
  {
    var s := w + "." + f;
    assert forall i :: 0 <= i < |w| ==> s[i] == w[i];
    assert forall i :: 0 <= i < |f| ==> s[|w| + 1 + i] == f[i];
  }

  lemma LimitPlain(next: string, m: int)
    requires m >= 1 && Plain(next)
    ensures Plain(Limit(next, m))
  {
    if '.' in next {
      hide Limit, Frac, Plain, BeforeDot, AfterDot;
      var w, f := FirstDot(next);
      LimitIs(w, f, m);
      PlainParts(w, f);
      FracHasNoDot(f, m);
      PlainParts(w, Frac(f, m));
    }
  }

  // What is limited before more is appended, or after more was prepended, is limited the same way again.
  lemma FracAppend(f: string, b: string, m: nat)
    ensures Frac(Frac(f, m) + b, m) == Frac(f + b, m)
  {
    hide Without;
    WithoutConcat(Frac(f, m), b, IsDot);
    WithoutConcat(f, b, IsDot);
    FracHasNoDot(f, m);
  }

  lemma FracPrepend(g: string, f: string, m: nat)
    ensures Frac(g + Frac(f, m), m) == Frac(g + f, m)
  {
    hide Without;
    WithoutConcat(g, Frac(f, m), IsDot);
    WithoutConcat(g, f, IsDot);
    FracHasNoDot(f, m);
  }

  // ---------- limiting pieces ----------

  lemma LimitLeft(a: string, b: string, m: int)
    requires m >= 1
    ensures Limit(Limit(a, m) + b, m) == Limit(a + b, m)
  {
    if '.' in a {
      hide Limit, Frac, BeforeDot, AfterDot;
      var w, f := FirstDot(a);
      var kept := Frac(f, m);
      LimitIs(w, f, m);
      assert Limit(a, m) + b == w + "." + (kept + b) && a + b == w + "." + (f + b);
      LimitIs(w, kept + b, m);
      LimitIs(w, f + b, m);
      FracAppend(f, b, m);
    }
  }

  lemma LimitRight(a: string, b: string, m: int)
    requires m >= 1
    ensures Limit(a + Limit(b, m), m) == Limit(a + b, m)
  {
    if '.' in b {
      hide Limit, Frac, BeforeDot, AfterDot;
      var w, f := FirstDot(b);
      LimitIs(w, f, m);
      if '.' in a {
        var v, g := FirstDot(a);
        DotBefore(v, g, w, f, m);
      } else {
        NoDotBefore(a, w, f, m);
      }
    }
  }

  lemma DotBefore(v: string, g: string, w: string, f: string, m: int)
    requires m >= 1 && '.' !in v
    ensures Limit((v + "." + g) + (w + "." + Frac(f, m)), m) == Limit((v + "." + g) + (w + "." + f), m)
  {
    hide Limit, Frac;
    var h := g + (w + ".");
    assert (v + "." + g) + (w + "." + Frac(f, m)) == v + "." + (h + Frac(f, m));
    assert (v + "." + g) + (w + "." + f) == v + "." + (h + f);
    LimitIs(v, h + Frac(f, m), m);
    LimitIs(v, h + f, m);
    FracPrepend(h, f, m);
  }

  lemma NoDotBefore(a: string, w: string, f: string, m: int)
    requires m >= 1 && '.' !in a && '.' !in w
    ensures Limit(a + (w + "." + Frac(f, m)), m) == Limit(a + (w + "." + f), m)
  {
    hide Limit, Frac;
    assert a + (w + "." + Frac(f, m)) == (a + w) + "." + Frac(f, m);
    assert a + (w + "." + f) == (a + w) + "." + f;
    LimitIs(a + w, Frac(f, m), m);
    LimitIs(a + w, f, m);
    FracAgain(f, m);
  }

  // ---------- main results ----------

  // The digits of a text, in order.
  function DigitsIn(s: string): string {
    if s == "" then "" else
      var last := s[|s| - 1];
      DigitsIn(s[..|s| - 1]) + if '0' <= last <= '9' then [last] else ""
  }

  lemma {:induction false} CleanedDigits(raw: string)
    ensures Without(Cleaned(raw), IsDot) == DigitsIn(raw)
  {
    if raw != "" {
      hide Cleaned, Without;
      var front, last := raw[..|raw| - 1], raw[|raw| - 1];
      CleanedDigits(front);
      assert front + [last] == raw;
      CleanedConcat(front, [last]);
      WithoutConcat(Cleaned(front), Cleaned([last]), IsDot);
      CleanedOne(last);
    } else {
      assert Cleaned("") == "";
    }
  }

  lemma CleanedOne(c: char)
    ensures Cleaned([c]) == if '0' <= c <= '9' || c == '.' then [c] else ""
    ensures Without(Cleaned([c]), IsDot) == if '0' <= c <= '9' then [c] else ""
  {
    hide Without;
    WithoutOne(c, IsComma);
    WithoutOne(c, NotNumeric);
    WithoutOne(c, IsDot);
    WithoutNone("", NotNumeric);
    WithoutNone("", IsDot);
  }

  lemma WithoutOne(c: char, drop: char -> bool)
    ensures Without([c], drop) == if drop(c) then "" else [c]
  {
    assert [c][..0] == "";
  }

  lemma {:induction false} NoDotStays(raw: string)
    requires '.' !in raw
    ensures '.' !in Cleaned(raw) && Cleaned(raw) == DigitsIn(raw)
  {
    hide Without, DigitsIn;
    CleanedDigits(raw);
    WithoutAll(raw, IsComma);
    WithoutAll(Without(raw, IsComma), NotNumeric);
    assert forall c :: c in Cleaned(raw) ==> c in raw;
    WithoutNone(Cleaned(raw), IsDot);
  }

  // What is kept: all digits, in order; and in a decimal field the first dot, with at most `m` digits after.
  lemma KeepsDigits(raw: string, kind: Kind, m: int)
    requires kind == Integer || '.' !in raw
    ensures Sanitize(raw, kind, m) == DigitsIn(raw)
  {
    hide Cleaned, DigitsIn;
    SanitizeIs(raw, kind, m);
    CleanedDigits(raw);
    if kind == Decimal {
      NoDotStays(raw);
    }
  }

  lemma KeepsFraction(w: string, f: string, m: int)
    requires m >= 1 && '.' !in w
    ensures var digits := DigitsIn(f);
            Sanitize(w + "." + f, Decimal, m) == DigitsIn(w) + "." + if |digits| <= m then digits else digits[..m]
  {
    hide Sanitize, Cleaned, Without, DigitsIn, Limit;
    SanitizeIs(w + "." + f, Decimal, m);
    CleanedConcat(w + ".", f);
    CleanedConcat(w, ".");
    CleanedOne('.');
    assert ['.'] == ".";
    NoDotStays(w);
    CleanedDigits(f);
    LimitIs(Cleaned(w), Cleaned(f), m);
  }

  // Where the laws hold: integers, and decimals that may have at least one fraction digit.
  predicate Ordinary(kind: Kind, m: int) {
    kind == Integer || m >= 1
  }

  lemma SanitizeIs(raw: string, kind: Kind, m: int)
    ensures Sanitize(raw, kind, m) == if kind == Integer then Without(Cleaned(raw), IsDot) else Limit(Cleaned(raw), m)
  {
  }

  lemma SanitizedPlain(raw: string, kind: Kind, m: int)
    requires Ordinary(kind, m)
    ensures Plain(Sanitize(raw, kind, m))
  {
    CleanedPlain(raw);
    if kind == Integer {
      DigitsOnly(Cleaned(raw));
    } else {
      LimitPlain(Cleaned(raw), m);
    }
  }

  // Cleaning a part of the text first changes nothing, whether it stands first ...
  lemma LeftAbsorbed(a: string, b: string, kind: Kind, m: int)
    requires Ordinary(kind, m)
    ensures Sanitize(Sanitize(a, kind, m) + b, kind, m) == Sanitize(a + b, kind, m)
  {
    hide Sanitize, Limit, Cleaned;
    var s := Sanitize(a, kind, m);
    SanitizedPlain(a, kind, m);
    SanitizeIs(a, kind, m);
    SanitizeIs(s + b, kind, m);
    SanitizeIs(a + b, kind, m);
    CleanedConcat(s, b);
    CleanedConcat(a, b);
    CleanedAgain(s);
    CleanedPlain(a);
    CleanedPlain(b);
    if kind == Integer {
      WithoutConcat(Cleaned(a), Cleaned(b), IsDot);
      WithoutConcat(s, Cleaned(b), IsDot);
      WithoutAll(Cleaned(a), IsDot);
      WithoutNone(s, IsDot);
    } else {
      LimitLeft(Cleaned(a), Cleaned(b), m);
    }
  }

  // ... or last ...
  lemma RightAbsorbed(a: string, b: string, kind: Kind, m: int)
    requires Ordinary(kind, m)
    ensures Sanitize(a + Sanitize(b, kind, m), kind, m) == Sanitize(a + b, kind, m)
  {
    hide Sanitize, Limit, Cleaned;
    var s := Sanitize(b, kind, m);
    SanitizedPlain(b, kind, m);
    SanitizeIs(b, kind, m);
    SanitizeIs(a + s, kind, m);
    SanitizeIs(a + b, kind, m);
    CleanedConcat(a, s);
    CleanedConcat(a, b);
    CleanedAgain(s);
    CleanedPlain(a);
    CleanedPlain(b);
    if kind == Integer {
      WithoutConcat(Cleaned(a), Cleaned(b), IsDot);
      WithoutConcat(Cleaned(a), s, IsDot);
      WithoutAll(Cleaned(b), IsDot);
      WithoutNone(s, IsDot);
    } else {
      LimitRight(Cleaned(a), Cleaned(b), m);
    }
  }

  // ... or in the middle, as when text is pasted over a selection.
  lemma PieceAbsorbed(a: string, b: string, c: string, kind: Kind, m: int)
    requires Ordinary(kind, m)
    ensures Sanitize(a + Sanitize(b, kind, m) + c, kind, m) == Sanitize(a + b + c, kind, m)
  {
    hide Sanitize;
    LeftAbsorbed(a + Sanitize(b, kind, m), c, kind, m);
    RightAbsorbed(a, b, kind, m);
    LeftAbsorbed(a + b, c, kind, m);
  }

  // The value after typing some pieces one by one, each cleaned with what is already there.
  function Typed(pieces: seq<string>, kind: Kind, m: int): string {
    if pieces == [] then "" else Sanitize(Typed(pieces[..|pieces| - 1], kind, m) + pieces[|pieces| - 1], kind, m)
  }

  function Joined(pieces: seq<string>): string {
    if pieces == [] then "" else Joined(pieces[..|pieces| - 1]) + pieces[|pieces| - 1]
  }

  // Typing in pieces, however cut, gives what pasting everything at once gives.
  lemma {:induction false} TypingIsPasting(pieces: seq<string>, kind: Kind, m: int)
    requires Ordinary(kind, m)
    ensures Typed(pieces, kind, m) == Sanitize(Joined(pieces), kind, m)
  {
    if pieces != [] {
      var front := pieces[..|pieces| - 1];
      TypingIsPasting(front, kind, m);
      LeftAbsorbed(Joined(front), pieces[|pieces| - 1], kind, m);
    }
  }

  ghost predicate Streams(kind: Kind, m: int) {
    forall a, b :: Sanitize(Sanitize(a, kind, m) + b, kind, m) == Sanitize(a + b, kind, m)
  }

  // The law fails for decimal fields with no or with a negative number of decimals, and only for those.
  lemma StreamsExactly(kind: Kind, m: int)
    ensures Streams(kind, m) <==> Ordinary(kind, m)
  {
    if Ordinary(kind, m) {
      forall a, b ensures Sanitize(Sanitize(a, kind, m) + b, kind, m) == Sanitize(a + b, kind, m) {
        LeftAbsorbed(a, b, kind, m);
      }
    } else if m == 0 {
      NoDecimals();
    } else {
      NegativeDecimals(m);
    }
  }

  lemma SanitizeDecimal(w: string, f: string, m: int)
    requires AllDigits(w) && AllDigits(f)
    ensures Sanitize(w + "." + f, Decimal, m) ==
            var frac := SliceTo(f, m);
            if frac != "" then w + "." + frac else if f == "" then w + "." else w
  {
    hide Cleaned, Without, BeforeDot, AfterDot, SliceTo;
    var raw := w + "." + f;
    CleanedAgain(raw);
    FirstDotOf(w, f);
    WithoutNone(f, IsDot);
    assert raw[|w|] == '.';
    if f != "" {
      assert raw[|raw| - 1] == f[|f| - 1];
    }
  }

  lemma SanitizeWhole(w: string, m: int)
    requires AllDigits(w)
    ensures Sanitize(w, Decimal, m) == w
  {
    hide Cleaned;
    CleanedAgain(w);
  }

  lemma NoDecimals()
    ensures !Streams(Decimal, 0)
  {
    hide Sanitize;
    SanitizeDecimal("1", "5", 0);
    SanitizeDecimal("1", "52", 0);
    SanitizeWhole("12", 0);
    var a := "1" + "." + "5";
    assert a + "2" == "1" + "." + "52" && "1" + "2" == "12";
    assert Sanitize(Sanitize(a, Decimal, 0) + "2", Decimal, 0) == "12";
    assert Sanitize(a + "2", Decimal, 0) == "1";
    assert "12"[1] == '2';
  }

  lemma NegativeDecimals(m: int)
    requires m < 0
    ensures !Streams(Decimal, m)
  {
    hide Sanitize;
    var ones := seq(1 - m, _ => '1');
    var a, short := "0" + "." + ones, "0" + "." + "1";
    SanitizeDecimal("0", ones, m);
    assert SliceTo(ones, m) == "1";
    SanitizeDecimal("0", "1", m);
    assert Sanitize(a, Decimal, m) == short && Sanitize(short, Decimal, m) == "0";
    assert short + "" == short && a + "" == a;
    assert |short| == 3;
    assert Sanitize(Sanitize(a, Decimal, m) + "", Decimal, m) != Sanitize(a + "", Decimal, m);
  }

  // What a field can hold: digits, at most one dot in a decimal field, at most `m` digits after it.
  predicate WellFormed(s: string, kind: Kind, m: int) {
    && Plain(s)
    && (kind == Integer ==> '.' !in s)
    && ('.' in s ==> '.' !in AfterDot(s) && |AfterDot(s)| <= m)
  }

  // The outputs are exactly the well-formed texts, and these are left as they are.
  lemma OutputsAreWellFormed(raw: string, kind: Kind, m: int)
    requires Ordinary(kind, m)
    ensures WellFormed(Sanitize(raw, kind, m), kind, m)
    ensures WellFormed(raw, kind, m) <==> Sanitize(raw, kind, m) == raw
  {
    hide *;
    OutputWellFormed(raw, kind, m);
    if WellFormed(raw, kind, m) {
      WellFormedStays(raw, kind, m);
    }
  }

  lemma OutputWellFormed(raw: string, kind: Kind, m: int)
    requires Ordinary(kind, m)
    ensures WellFormed(Sanitize(raw, kind, m), kind, m)
  {
    hide Sanitize, Limit, Frac, Plain, Cleaned, Without, BeforeDot, AfterDot;
    SanitizedPlain(raw, kind, m);
    SanitizeIs(raw, kind, m);
    var next := Cleaned(raw);
    if kind == Integer {
      WithoutAll(next, IsDot);
    } else if '.' in next {
      var w, f := FirstDot(next);
      LimitIs(w, f, m);
      FracHasNoDot(f, m);
      FracLength(f, m);
      FirstDotOf(w, Frac(f, m));
    } else {
      NoDotNoLimit(next, m);
    }
  }

  lemma FracLength(f: string, m: int)
    requires m >= 0
    ensures |Frac(f, m)| <= m
  {
  }

  lemma NoDotNoLimit(next: string, m: int)
    requires '.' !in next
    ensures Limit(next, m) == next
  {
  }

  lemma WellFormedStays(s: string, kind: Kind, m: int)
    requires Ordinary(kind, m) && WellFormed(s, kind, m)
    ensures Sanitize(s, kind, m) == s
  {
    hide Sanitize, Limit, Cleaned, Without, BeforeDot, AfterDot;
    SanitizeIs(s, kind, m);
    CleanedAgain(s);
    if kind == Integer {
      WithoutNone(s, IsDot);
    } else if '.' in s {
      var w, f := FirstDot(s);
      LimitIs(w, f, m);
      WithoutNone(f, IsDot);
    } else {
      NoDotNoLimit(s, m);
    }
  }

  // ---------- the field ----------

  class NumberInput {
    const kind: Kind
    const maxDecimals: int
    var value: string

    constructor (kind: Kind, maxDecimals: int)
      ensures this.kind == kind && this.maxDecimals == maxDecimals && value == ""
    {
      this.kind, this.maxDecimals, value := kind, maxDecimals, "";
    }

    // The browser has put the edited text into the field.
    method OnChange(edited: string)
      modifies this
      ensures value == Sanitize(edited, kind, maxDecimals)
    {
      value := edited;
      var cleaned := Sanitize(edited, kind, maxDecimals);
      if cleaned != value {
        value := cleaned;
      }
    }

    // Pasted text replaces the selection [start, end). If it is clean the browser inserts it itself.
    method OnPaste(pasted: string, start: nat, end: nat)
      requires start <= end <= |value|
      modifies this
      ensures var cleaned := Sanitize(pasted, kind, maxDecimals);
              value == Sanitize(old(value)[..start] + cleaned + old(value)[end..], kind, maxDecimals)
      ensures Ordinary(kind, maxDecimals) ==>
                value == Sanitize(old(value)[..start] + pasted + old(value)[end..], kind, maxDecimals)
    {
      var cleaned := Sanitize(pasted, kind, maxDecimals);
      if cleaned != pasted {
        if Ordinary(kind, maxDecimals) {
          PieceAbsorbed(value[..start], pasted, value[end..], kind, maxDecimals);
        }
        value := Sanitize(value[..start] + cleaned + value[end..], kind, maxDecimals);
      } else {
        OnChange(value[..start] + pasted + value[end..]);
      }
    }
  }
}
