/**
 Slugs of demo data (backend/_reset_demo_seed.py, `_slugify`): strip, lower-case, one hyphen for each run of
 other characters, no hyphen at the ends, at most 140 characters, never empty.

 The white space of `strip` and the lower-casing of characters are parameters; `Alphabet` says what is used
 of them. The reference is the list of words of a text, joined by hyphens.
 */
module Slug {
  const MAX_LENGTH := 140

  // ---------- the function ----------

  predicate SlugChar(c: char) {
    'a' <= c <= 'z' || '0' <= c <= '9'
  }

  function LowerAll(s: string, lower: char -> string): string {
    if s == "" then "" else LowerAll(s[..|s| - 1], lower) + lower(s[|s| - 1])
  }

  function StripStart(s: string, drop: char -> bool): string {
    if s != "" && drop(s[0]) then StripStart(s[1..], drop) else s
  }

  function StripEnd(s: string, drop: char -> bool): string {
    if s != "" && drop(s[|s| - 1]) then StripEnd(s[..|s| - 1], drop) else s
  }

  function Strip(s: string, drop: char -> bool): string {
    StripEnd(StripStart(s, drop), drop)
  }

  // What the first substitution makes of a character, given what comes before it.
  function Added(before: string, c: char): string {
    if SlugChar(c) then [c] else if before != "" && !SlugChar(before[|before| - 1]) then "" else "-"
  }

  // The first substitution: each maximal run of characters outside a-z and 0-9 becomes one hyphen.
  function Hyphenate(s: string): string {
    if s == "" then "" else
      var front, last := s[..|s| - 1], s[|s| - 1];
      Hyphenate(front) + Added(front, last)
  }

  // The second substitution: each maximal run of two or more hyphens becomes one.
  function Collapse(s: string): string {
    if s == "" then "" else
      var front, last := s[..|s| - 1], s[|s| - 1];
      Collapse(front) + if last == '-' && front != "" && front[|front| - 1] == '-' then "" else [last]
  }

  predicate IsHyphen(c: char) { c == '-' }

  // The slug before it is cut.
  function Whole(value: string, lower: char -> string, space: char -> bool): string {
    Strip(Collapse(Hyphenate(LowerAll(Strip(value, space), lower))), IsHyphen)
  }

  function Cut(s: string): string {
    if |s| > MAX_LENGTH then s[..MAX_LENGTH] else s
  }

  function Slugify(value: string, lower: char -> string, space: char -> bool): string {
    var text := Cut(Whole(value, lower, space));
    if text == "" then "item" else text
  }

  // Characters of slugs are lower-case and no white space; white space has no lower case among them.
  ghost predicate Alphabet(lower: char -> string, space: char -> bool) {
    && (forall c :: 'a' <= c <= 'z' || '0' <= c <= '9' || c == '-' ==> lower(c) == [c] && !space(c))
    && (forall c :: space(c) ==> NoSlugChars(lower(c)))
  }

  predicate NoSlugChars(s: string) {
    forall i :: 0 <= i < |s| ==> !SlugChar(s[i])
  }

  // ---------- words ----------

  // The maximal runs of slug characters.
  function Words(s: string): seq<string> {
    if s == "" then [] else
      var front, last := s[..|s| - 1], s[|s| - 1];
      var words := Words(front);
      if !SlugChar(last) then words
      else if front != "" && SlugChar(front[|front| - 1]) && words != []
      then Extended(words, last)
      else words + [[last]]
  }

  // With one more character in the last word.
  function Extended(words: seq<string>, c: char): seq<string>
    requires words != []
  {
    words[..|words| - 1] + [words[|words| - 1] + [c]]
  }

  function Join(words: seq<string>): string {
    if words == [] then ""
    else if |words| == 1 then words[0]
    else Join(words[..|words| - 1]) + "-" + words[|words| - 1]
  }

  predicate IsWord(w: string) {
    w != "" && forall i :: 0 <= i < |w| ==> SlugChar(w[i])
  }

  ghost predicate AllWords(words: seq<string>) {
    forall i :: 0 <= i < |words| ==> IsWord(words[i])
  }

  lemma JoinAppend(words: seq<string>, w: string)
    ensures Join(words + [w]) == if words == [] then w else Join(words) + "-" + w
  {
    assert (words + [w])[..|words|] == words;
  }

  lemma JoinExtend(words: seq<string>, c: char)
    requires words != []
    ensures Join(Extended(words, c)) == Join(words) + [c]
  {
    hide Join;
    var front, last := words[..|words| - 1], words[|words| - 1];
    JoinAppend(front, last + [c]);
    JoinAppend(front, last);
    assert front + [last] == words;
    assert (Join(front) + "-" + last) + [c] == Join(front) + "-" + (last + [c]);
  }

  lemma {:induction false} WordsAre(s: string)
    ensures AllWords(Words(s))
    ensures s != "" && SlugChar(s[|s| - 1]) ==> Words(s) != []
  {
    if s != "" {
      hide AllWords;
      var front, last := s[..|s| - 1], s[|s| - 1];
      WordsAre(front);
      if SlugChar(last) {
        WordExtends(Words(front), last);
      }
    } else {
      assert AllWords([]);
    }
  }

  lemma WordExtends(words: seq<string>, c: char)
    requires AllWords(words) && SlugChar(c)
    ensures AllWords(words + [[c]])
    ensures words != [] ==> AllWords(Extended(words, c))
  {
    assert IsWord([c]);
    if words != [] {
      assert IsWord(words[|words| - 1] + [c]);
    }
  }

  // No hyphen at the start, none at the end, no two in a row, and nothing but slug characters and hyphens.
  predicate Clean(s: string) {
    (forall i :: 0 <= i < |s| ==> SlugChar(s[i]) || s[i] == '-') && NoDouble(s)
  }

  predicate NoDouble(s: string) {
    forall i :: 0 <= i < |s| - 1 ==> !(s[i] == '-' && s[i + 1] == '-')
  }

  predicate Trimmed(s: string) {
    s == "" || (s[0] != '-' && s[|s| - 1] != '-')
  }

  lemma {:induction false} JoinClean(words: seq<string>)
    requires AllWords(words)
    ensures Clean(Join(words)) && Trimmed(Join(words))
    ensures words != [] ==> Join(words) != ""
  {
    if |words| >= 1 {
      assert IsWord(words[|words| - 1]);
    }
    if |words| > 1 {
      var front := words[..|words| - 1];
      JoinClean(front);
      JoinTwo(Join(front), words[|words| - 1]);
    }
  }

  lemma JoinTwo(s: string, w: string)
    requires Clean(s) && Trimmed(s) && s != "" && IsWord(w)
    ensures Clean(s + "-" + w) && Trimmed(s + "-" + w)
  {
    var t := s + "-" + w;
    assert t[|s|] == '-' && t[0] == s[0] && t[|t| - 1] == w[|w| - 1];
    assert forall i :: 0 <= i < |s| ==> t[i] == s[i];
    assert forall i :: |s| < i < |t| ==> t[i] == w[i - |s| - 1];
  }

  // ---------- the substitutions ----------

  function Lead(s: string): string {
    if s != "" && !SlugChar(s[0]) then "-" else ""
  }

  function Trail(s: string): string {
    if s != "" && !SlugChar(s[|s| - 1]) && Words(s) != [] then "-" else ""
  }

  // The first substitution leaves the words joined by single hyphens, with at most one more at each end.
  lemma {:induction false} HyphenateIs(s: string)
    ensures Hyphenate(s) == Lead(s) + (Join(Words(s)) + Trail(s))
  {
    if |s| == 1 {
      assert s[..0] == "";
    } else if s != "" {
      hide Join, Words, Lead, Trail, Added;
      var front, last := s[..|s| - 1], s[|s| - 1];
      assert front + [last] == s;
      HyphenateIs(front);
      HyphenateStep(front, last);
      LeadOf(s);
      Regroup(Lead(front), Join(Words(front)), Trail(front), Added(front, last));
    }
  }

  lemma Regroup(lead: string, joined: string, trail: string, more: string)
    ensures (lead + (joined + trail)) + more == lead + ((joined + trail) + more)
  {
  }

  lemma HyphenateStep(front: string, c: char)
    requires front != ""
    ensures Join(Words(front + [c])) + Trail(front + [c]) == Join(Words(front)) + Trail(front) + Added(front, c)
  {
    hide Join, Extended;
    var words := Words(front);
    assert (front + [c])[..|front|] == front;
    WordsAre(front);
    if SlugChar(c) {
      WordGrows(front, c, words);
      assert Join(words) + "" == Join(words);
      if words == [] {
        JoinNothing();
      }
    }
  }

  // A slug character starts a word, after a hyphen if there was a word before, or goes on with one.
  lemma WordGrows(front: string, c: char, words: seq<string>)
    ensures words != [] ==> Join(Extended(words, c)) == Join(words) + [c]
    ensures Join(words + [[c]]) == if words == [] then [c] else Join(words) + "-" + [c]
  {
    if words != [] {
      JoinExtend(words, c);
    }
    JoinAppend(words, [c]);
  }

  lemma LeadOf(s: string)
    requires |s| > 1
    ensures Lead(s) == Lead(s[..|s| - 1])
  {
  }

  lemma Framed(lead: string, s: string, trail: string)
    requires lead in {"", "-"} && trail in {"", "-"} && (s == "" ==> trail == "")
    requires Clean(s) && Trimmed(s)
    ensures NoDouble(lead + (s + trail))
    ensures Strip(lead + (s + trail), IsHyphen) == s
  {
    var t := lead + (s + trail);
    forall i | 0 <= i < |t| - 1 ensures !(t[i] == '-' && t[i + 1] == '-') {
      if |lead| <= i < |lead| + |s| - 1 {
        assert t[i] == s[i - |lead|] && t[i + 1] == s[i + 1 - |lead|];
      }
    }
    StripLead(lead, s + trail);
    StripTrail(s, trail);
  }

  lemma StripLead(lead: string, rest: string)
    requires lead in {"", "-"} && (rest == "" || rest[0] != '-')
    ensures StripStart(lead + rest, IsHyphen) == rest
  {
    assert (lead + rest)[|lead|..] == rest;
    assert StripStart(rest, IsHyphen) == rest;
  }

  lemma StripTrail(s: string, trail: string)
    requires trail in {"", "-"} && (s == "" || s[|s| - 1] != '-')
    ensures StripEnd(s + trail, IsHyphen) == s
  {
    assert (s + trail)[..|s|] == s;
    assert StripEnd(s, IsHyphen) == s;
  }

  // What the second substitution promises of any text: no two hyphens in a row are left, nothing but
  // hyphens goes, the words stay apart, and no first or last character changes.
  lemma {:induction false} CollapseMeans(s: string)
    ensures forall i :: 0 < i < |Collapse(s)| ==> Collapse(s)[i - 1] != '-' || Collapse(s)[i] != '-'
    ensures NoHyphens(Collapse(s)) == NoHyphens(s) && Words(Collapse(s)) == Words(s)
    ensures s != "" ==> && Collapse(s) != "" && Collapse(s)[0] == s[0]
                        && Collapse(s)[|Collapse(s)| - 1] == s[|s| - 1]
  {
    if s != "" {
      var front, last := s[..|s| - 1], s[|s| - 1];
      CollapseMeans(front);
      if Collapse(s) != Collapse(front) {
        assert Collapse(s)[..|Collapse(s)| - 1] == Collapse(front);
      }
    }
  }

  function NoHyphens(s: string): string {
    if s == "" then "" else NoHyphens(s[..|s| - 1]) + if s[|s| - 1] == '-' then "" else [s[|s| - 1]]
  }

  lemma {:induction false} CollapseNothing(s: string)
    requires NoDouble(s)
    ensures Collapse(s) == s
  {
    if s != "" {
      var front := s[..|s| - 1];
      CollapseNothing(front);
      if front != "" {
        assert !(s[|s| - 2] == '-' && s[|s| - 1] == '-');
      }
    }
  }

  // The second substitution never finds anything to replace.
  lemma SecondSubstitutionIdle(s: string)
    ensures Collapse(Hyphenate(s)) == Hyphenate(s)
  {
    hide Collapse, Hyphenate, Words, Join;
    HyphenateIs(s);
    WordsAre(s);
    JoinClean(Words(s));
    Framed(Lead(s), Join(Words(s)), Trail(s));
    CollapseNothing(Hyphenate(s));
  }

  lemma StrippedIsJoined(s: string)
    ensures Strip(Collapse(Hyphenate(s)), IsHyphen) == Join(Words(s))
  {
    hide Collapse, Hyphenate, Words, Join, Strip;
    SecondSubstitutionIdle(s);
    HyphenateIs(s);
    WordsAre(s);
    JoinClean(Words(s));
    Framed(Lead(s), Join(Words(s)), Trail(s));
  }

  // ---------- stripping white space ----------

  lemma {:induction false} WordsNone(s: string)
    requires NoSlugChars(s)
    ensures Words(s) == []
  {
    if s != "" {
      WordsNone(s[..|s| - 1]);
    }
  }

  lemma {:induction false} WordsAfterNone(s: string, t: string)
    requires NoSlugChars(s)
    ensures Words(s + t) == Words(t)
  {
    if t == "" {
      assert s + t == s;
      WordsNone(s);
    } else {
      var front := t[..|t| - 1];
      WordsAfterNone(s, front);
      assert (s + t)[..|s + t| - 1] == s + front;
      WordsAre(front);
    }
  }

  lemma {:induction false} WordsBeforeNone(s: string, t: string)
    requires NoSlugChars(t)
    ensures Words(s + t) == Words(s)
  {
    if t == "" {
      assert s + t == s;
    } else {
      WordsBeforeNone(s, t[..|t| - 1]);
      assert (s + t)[..|s + t| - 1] == s + t[..|t| - 1];
    }
  }

  lemma {:induction false} LowerConcat(a: string, b: string, lower: char -> string)
    ensures LowerAll(a + b, lower) == LowerAll(a, lower) + LowerAll(b, lower)
  {
    if b == "" {
      assert a + b == a;
    } else {
      LowerConcat(a, b[..|b| - 1], lower);
      assert (a + b)[..|a + b| - 1] == a + b[..|b| - 1];
    }
  }

  lemma LowerOne(c: char, lower: char -> string)
    ensures LowerAll([c], lower) == lower(c)
  {
    assert [c][..0] == "";
  }

  lemma {:induction false} StripStartWords(s: string, lower: char -> string, space: char -> bool)
    requires Alphabet(lower, space)
    ensures Words(LowerAll(StripStart(s, space), lower)) == Words(LowerAll(s, lower))
  {
    if s != "" && space(s[0]) {
      StripStartWords(s[1..], lower, space);
      assert s == [s[0]] + s[1..];
      LowerConcat([s[0]], s[1..], lower);
      LowerOne(s[0], lower);
      WordsAfterNone(lower(s[0]), LowerAll(s[1..], lower));
    }
  }

  lemma {:induction false} StripEndWords(s: string, lower: char -> string, space: char -> bool)
    requires Alphabet(lower, space)
    ensures Words(LowerAll(StripEnd(s, space), lower)) == Words(LowerAll(s, lower))
  {
    if s != "" && space(s[|s| - 1]) {
      StripEndWords(s[..|s| - 1], lower, space);
      WordsBeforeNone(LowerAll(s[..|s| - 1], lower), lower(s[|s| - 1]));
    }
  }

  // ---------- main results ----------

  // A slug is the words of the lower-cased text joined by hyphens, cut after 140 characters, or "item" if
  // there is no word. In particular stripping the text first, and collapsing hyphens, change nothing.
  lemma SlugIsWords(value: string, lower: char -> string, space: char -> bool)
    requires Alphabet(lower, space)
    ensures Whole(value, lower, space) == Join(Words(LowerAll(value, lower)))
    ensures Slugify(value, lower, space) ==
            var text := Join(Words(LowerAll(value, lower)));
            if Words(LowerAll(value, lower)) == [] then "item" else if |text| > 140 then text[..140] else text
  {
    hide Collapse, Hyphenate, Words, Join, LowerAll, StripStart, StripEnd, Alphabet;
    var words := Words(LowerAll(value, lower));
    StripStartWords(value, lower, space);
    StripEndWords(StripStart(value, space), lower, space);
    StrippedIsJoined(LowerAll(Strip(value, space), lower));
    WordsAre(LowerAll(value, lower));
    JoinClean(words);
    if words == [] {
      assert Join(words) == "" by { JoinNothing(); }
    }
  }

  lemma JoinNothing()
    ensures Join([]) == ""
  {
  }

  // What every slug looks like.
  lemma SlugShape(value: string, lower: char -> string, space: char -> bool)
    requires Alphabet(lower, space)
    ensures var slug := Slugify(value, lower, space);
            && 0 < |slug| <= 140 && Clean(slug) && slug[0] != '-'
            && (forall i :: 0 <= i < |slug| ==> 'a' <= slug[i] <= 'z' || '0' <= slug[i] <= '9' || slug[i] == '-')
            && (forall i :: 0 <= i < |slug| - 1 ==> slug[i] != '-' || slug[i + 1] != '-')
  {
    hide Words, Join, LowerAll, Whole;
    SlugIsWords(value, lower, space);
    WordsAre(LowerAll(value, lower));
    JoinClean(Words(LowerAll(value, lower)));
  }

  lemma {:induction false} LowerClean(s: string, lower: char -> string, space: char -> bool)
    requires Alphabet(lower, space) && Clean(s)
    ensures LowerAll(s, lower) == s
  {
    if s != "" {
      LowerClean(s[..|s| - 1], lower, space);
    }
  }

  lemma {:induction false} HyphenateClean(s: string)
    requires Clean(s)
    ensures Hyphenate(s) == s
  {
    if s != "" {
      hide Clean, NoDouble;
      var front, last := s[..|s| - 1], s[|s| - 1];
      CleanFront(s);
      HyphenateClean(front);
      assert front + [last] == s;
    }
  }

  lemma CleanFront(s: string)
    requires Clean(s) && s != ""
    ensures Clean(s[..|s| - 1]) && Added(s[..|s| - 1], s[|s| - 1]) == [s[|s| - 1]]
  {
    if |s| > 1 {
      assert !(s[|s| - 2] == '-' && s[|s| - 1] == '-');
    }
  }

  // The cut falls right after a hyphen.
  predicate CutAtHyphen(whole: string) {
    |whole| > 140 && whole[139] == '-'
  }

  // Text that is a slug already, and ends in no hyphen, is its own slug. Text without a single letter from
  // a to z or digit, once lower-cased, is "item".
  lemma SlugsStay(s: string, lower: char -> string, space: char -> bool)
    requires Alphabet(lower, space) && 0 < |s| <= 140 && s[0] != '-' && s[|s| - 1] != '-'
    requires forall i :: 0 <= i < |s| ==> 'a' <= s[i] <= 'z' || '0' <= s[i] <= '9' || s[i] == '-'
    requires forall i :: 0 <= i < |s| - 1 ==> s[i] != '-' || s[i + 1] != '-'
    ensures Slugify(s, lower, space) == s
  {
    hide Whole;
    assert Clean(s);
    WholeOfSlug(s, lower, space);
  }

  lemma WordlessIsItem(value: string, lower: char -> string, space: char -> bool)
    requires Alphabet(lower, space)
    requires var text := LowerAll(value, lower);
             forall i :: 0 <= i < |text| ==> !('a' <= text[i] <= 'z') && !('0' <= text[i] <= '9')
    ensures Slugify(value, lower, space) == "item"
  {
    hide Whole, LowerAll, Words, Join, Slugify;
    SlugIsWords(value, lower, space);
    WordsNone(LowerAll(value, lower));
  }

  // Slugifying a slug again removes exactly the hyphen that the cut may have left at the end; it changes
  // nothing exactly if the cut left none.
  lemma SlugAgain(value: string, lower: char -> string, space: char -> bool)
    requires Alphabet(lower, space)
    ensures var slug := Slugify(value, lower, space);
            && Slugify(slug, lower, space) ==
               (if CutAtHyphen(Whole(value, lower, space)) then slug[..|slug| - 1] else slug)
            && (Slugify(slug, lower, space) == slug <==> !CutAtHyphen(Whole(value, lower, space)))
  {
    hide Words, Join, LowerAll, Whole, Collapse, Hyphenate, Strip, Alphabet;
    var slug := Slugify(value, lower, space);
    var ends := slug[|slug| - 1] == '-';
    SlugShape(value, lower, space);
    EndsAtCut(value, lower, space);
    WholeOfSlug(slug, lower, space);
  }

  lemma EndsAtCut(value: string, lower: char -> string, space: char -> bool)
    requires Alphabet(lower, space)
    ensures var slug := Slugify(value, lower, space);
            slug != "" && (slug[|slug| - 1] == '-' <==> CutAtHyphen(Whole(value, lower, space)))
  {
    hide Words, Join, LowerAll, Whole, Alphabet;
    SlugIsWords(value, lower, space);
    WordsAre(LowerAll(value, lower));
    JoinClean(Words(LowerAll(value, lower)));
    assert "item"[3] == 'm';
  }

  lemma WholeOfSlug(slug: string, lower: char -> string, space: char -> bool)
    requires Alphabet(lower, space) && slug != "" && Clean(slug) && slug[0] != '-'
    ensures Whole(slug, lower, space) == if slug[|slug| - 1] == '-' then slug[..|slug| - 1] else slug
  {
    hide LowerAll, Collapse, Hyphenate;
    assert Strip(slug, space) == slug;
    LowerClean(slug, lower, space);
    HyphenateClean(slug);
    CollapseNothing(slug);
    if slug[|slug| - 1] == '-' {
      var front := slug[..|slug| - 1];
      assert slug == front + "-";
      assert front != "" && slug[|slug| - 2] != '-';
      StripTrail(front, "-");
    } else {
      StripTrail(slug, "");
      assert slug + "" == slug;
    }
  }

  // The cut does leave a hyphen on some texts.
  lemma CutLeavesHyphen(lower: char -> string, space: char -> bool)
    requires Alphabet(lower, space)
    ensures exists value :: CutAtHyphen(Whole(value, lower, space))
  {
    hide LowerAll, Collapse, Hyphenate, Strip;
    var value := seq(139, _ => 'a') + "-b";
    assert Clean(value);
    assert value[0] == 'a' && value[139] == '-' && value[|value| - 1] == 'b';
    WholeOfSlug(value, lower, space);
    assert CutAtHyphen(Whole(value, lower, space));
  }
}
