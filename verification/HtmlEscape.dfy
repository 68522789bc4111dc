/**
 Escaping text for the exported business plan (frontend/lib/exportBusinessPlanPdf.ts): four replacements
 over the whole string, one after the other. The order matters; the reference substitutes all four
 characters at once, and a reader that knows the four entities gets the text back.
 */
module HtmlEscape {
  import opened Wrappers

  // ---------- the function ----------

  // replace with a global one-character pattern
  function ReplaceAll(s: string, c: char, to: string): string {
    if s == "" then "" else (if s[0] == c then to else [s[0]]) + ReplaceAll(s[1..], c, to)
  }

  function Esc(value: Option<string>): string {
    var text := if value.Some? then value.value else "";
    ReplaceAll(ReplaceAll(ReplaceAll(ReplaceAll(text, '&', "&amp;"), '<', "&lt;"), '>', "&gt;"), '"', "&quot;")
  }

  // ---------- one substitution ----------

  function Entity(c: char): string {
    match c
    case '&' => "&amp;"
    case '<' => "&lt;"
    case '>' => "&gt;"
    case '"' => "&quot;"
    case _ => [c]
  }

  function Substitute(s: string): string {
    if s == "" then "" else Entity(s[0]) + Substitute(s[1..])
  }

  lemma Associate(x: string, y: string, z: string)
    ensures x + (y + z) == (x + y) + z
  {
  }

  lemma {:induction false} ReplaceConcat(a: string, b: string, c: char, to: string)
    ensures ReplaceAll(a + b, c, to) == ReplaceAll(a, c, to) + ReplaceAll(b, c, to)
  {
    if a == "" {
      assert a + b == b;
    } else {
      var tail := a[1..];
      ReplaceConcat(tail, b, c, to);
      assert (a + b)[0] == a[0] && (a + b)[1..] == tail + b;
      Associate(if a[0] == c then to else [a[0]], ReplaceAll(tail, c, to), ReplaceAll(b, c, to));
    }
  }

  lemma {:induction false} ReplaceNothing(s: string, c: char, to: string)
    requires c !in s
    ensures ReplaceAll(s, c, to) == s
  {
    if s != "" {
      ReplaceNothing(s[1..], c, to);
    }
  }

  function EscText(text: string): string {
    Esc(Some(text))
  }

  lemma EscConcat(a: string, b: string)
    ensures EscText(a + b) == EscText(a) + EscText(b)
  {
    hide ReplaceAll;
    ReplaceConcat(a, b, '&', "&amp;");
    var a1, b1 := ReplaceAll(a, '&', "&amp;"), ReplaceAll(b, '&', "&amp;");
    ReplaceConcat(a1, b1, '<', "&lt;");
    var a2, b2 := ReplaceAll(a1, '<', "&lt;"), ReplaceAll(b1, '<', "&lt;");
    ReplaceConcat(a2, b2, '>', "&gt;");
    ReplaceConcat(ReplaceAll(a2, '>', "&gt;"), ReplaceAll(b2, '>', "&gt;"), '"', "&quot;");
  }

  lemma ReplaceOne(d: char, c: char, to: string)
    ensures ReplaceAll([d], c, to) == if d == c then to else [d]
  {
    assert [d][1..] == "";
  }

  // The entities put in by one replacement are not touched by the later ones.
  lemma EscOne(c: char)
    ensures EscText([c]) == Entity(c)
  {
    hide ReplaceAll;
    ReplaceOne(c, '&', "&amp;");
    ReplaceOne(c, '<', "&lt;");
    ReplaceOne(c, '>', "&gt;");
    ReplaceOne(c, '"', "&quot;");
    ReplaceNothing("&amp;", '<', "&lt;");
    ReplaceNothing("&amp;", '>', "&gt;");
    ReplaceNothing("&amp;", '"', "&quot;");
    ReplaceNothing("&lt;", '>', "&gt;");
    ReplaceNothing("&lt;", '"', "&quot;");
    ReplaceNothing("&gt;", '"', "&quot;");
  }

  // The four replacements in a row are one substitution per character.
  lemma {:induction false} EscIsSubstitution(text: string)
    ensures EscText(text) == Substitute(text)
  {
    if text != "" {
      EscIsSubstitution(text[1..]);
      EscConcat([text[0]], text[1..]);
      EscOne(text[0]);
      assert [text[0]] + text[1..] == text;
    }
  }

  // ---------- reading it back ----------

  // The character a text starts with once read, and how many characters it took.
  function ReadOne(t: string): (char, nat)
    requires t != ""
  {
    if "&amp;" <= t then ('&', 5)
    else if "&lt;" <= t then ('<', 4)
    else if "&gt;" <= t then ('>', 4)
    else if "&quot;" <= t then ('"', 6)
    else (t[0], 1)
  }

  function Decode(t: string): string {
    if t == "" then "" else
      var (c, taken) := ReadOne(t);
      [c] + Decode(t[taken..])
  }

  lemma ReadEntity(c: char, rest: string)
    ensures ReadOne(Entity(c) + rest) == (c, |Entity(c)|)
  {
    var t := Entity(c) + rest;
    assert Entity(c) <= t;
    assert t[0] == Entity(c)[0];
    if c in {'&', '<', '>', '"'} {
      assert t[1] == Entity(c)[1];
    }
  }

  lemma {:induction false} SubstituteDecodes(text: string)
    ensures Decode(Substitute(text)) == text
  {
    if text != "" {
      hide ReadOne, Entity;
      var c, rest := text[0], Substitute(text[1..]);
      SubstituteDecodes(text[1..]);
      ReadEntity(c, rest);
      EntityNotEmpty(c);
      assert (Entity(c) + rest)[|Entity(c)|..] == rest;
    }
  }

  lemma EntityNotEmpty(c: char)
    ensures Entity(c) != ""
  {
  }

  // A reader of the four entities gets back exactly the text; a missing value reads as empty.
  lemma EscDecodes(value: Option<string>)
    ensures Decode(Esc(value)) == if value.Some? then value.value else ""
  {
    hide ReplaceAll;
    var text := if value.Some? then value.value else "";
    assert Esc(value) == EscText(text);
    EscIsSubstitution(text);
    SubstituteDecodes(text);
  }

  // So different texts stay different.
  lemma EscInjective(a: string, b: string)
    requires EscText(a) == EscText(b)
    ensures a == b
  {
    hide Esc;
    EscDecodes(Some(a));
    EscDecodes(Some(b));
  }

  // ---------- what comes out ----------

  // No raw <, > or ", and every & starts one of the four entities.
  ghost predicate Safe(t: string) {
    forall i :: 0 <= i < |t| ==>
      && t[i] !in {'<', '>', '"'}
      && (t[i] == '&' ==> StartsEntity(t[i..]))
  }

  predicate StartsEntity(t: string) {
    "&amp;" <= t || "&lt;" <= t || "&gt;" <= t || "&quot;" <= t
  }

  lemma SafeTail(t: string, n: nat)
    requires Safe(t) && n <= |t|
    ensures Safe(t[n..])
  {
    hide StartsEntity;
    forall i | 0 <= i < |t| - n
      ensures t[n..][i] !in {'<', '>', '"'} && (t[n..][i] == '&' ==> StartsEntity(t[n..][i..]))
    {
      assert t[n..][i..] == t[n + i..];
    }
  }

  lemma SafePrepend(c: char, rest: string)
    requires Safe(rest)
    ensures Safe(Entity(c) + rest)
  {
    hide StartsEntity;
    var e, t := Entity(c), Entity(c) + rest;
    forall i | 0 <= i < |t| ensures t[i] !in {'<', '>', '"'} && (t[i] == '&' ==> StartsEntity(t[i..])) {
      if i >= |e| {
        assert t[i..] == rest[i - |e|..];
      } else {
        assert t[i] == e[i];
        EntityShape(c, i);
        if t[i] == '&' {
          EntityStarts(c, rest);
          assert t[0..] == t;
        }
      }
    }
  }

  lemma EntityShape(c: char, i: nat)
    requires i < |Entity(c)|
    ensures Entity(c)[i] !in {'<', '>', '"'}
    ensures Entity(c)[i] == '&' ==> i == 0 && c in {'&', '<', '>', '"'}
  {
  }

  lemma EntityStarts(c: char, rest: string)
    requires c in {'&', '<', '>', '"'}
    ensures StartsEntity(Entity(c) + rest)
  {
    assert Entity(c) <= Entity(c) + rest;
  }

  lemma {:induction false} SubstituteSafe(text: string)
    ensures Safe(Substitute(text))
  {
    if text != "" {
      SubstituteSafe(text[1..]);
      SafePrepend(text[0], Substitute(text[1..]));
    }
  }

  lemma ReadBack(t: string)
    requires Safe(t) && t != ""
    ensures ReadOne(t).1 <= |t| && Entity(ReadOne(t).0) == t[..ReadOne(t).1]
  {
    assert t[0..] == t;
  }

  lemma {:induction false} SafeIsSubstitution(t: string)
    requires Safe(t)
    ensures Substitute(Decode(t)) == t
    decreases |t|
  {
    if t != "" {
      hide ReadOne, Entity, Safe;
      var (c, taken) := ReadOne(t);
      ReadBack(t);
      EntityNotEmpty(c);
      SafeTail(t, taken);
      SafeIsSubstitution(t[taken..]);
      assert ([c] + Decode(t[taken..]))[1..] == Decode(t[taken..]);
    }
  }

  // The outputs are exactly the safe texts: a text is the escape of something exactly if it has no raw
  // markup, and then of what it decodes to.
  lemma OutputsAreSafe(t: string)
    ensures Safe(t) <==> exists text :: EscText(text) == t
    ensures Safe(t) ==> EscText(Decode(t)) == t
  {
    hide Safe, EscText, Substitute, Decode;
    if Safe(t) {
      SafeIsSubstitution(t);
      EscIsSubstitution(Decode(t));
    }
    forall text | EscText(text) == t ensures Safe(t) {
      EscIsSubstitution(text);
      SubstituteSafe(text);
    }
  }
}
