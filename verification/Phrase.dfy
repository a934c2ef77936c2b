/** Accent- and punctuation-insensitive phrase matching, and the query expansion built on it.  Lower-casing a
    character outside ASCII is a parameter; all that is assumed of it is that it yields no ASCII capital. */
module Phrase {

  predicate IsCapital(c: char) {
    'A' <= c <= 'Z'
  }

  predicate IsPlain(c: char) {
    'a' <= c <= 'z' || '0' <= c <= '9'
  }

  ghost predicate Lowers(other: char -> string) {
    forall c, i | 0 <= i < |other(c)| :: !IsCapital(other(c)[i])
  }

  function Lower(c: char, other: char -> string): string {
    if IsCapital(c) then [c + 'a' - 'A'] else if (c as int) < 128 then [c] else other(c)
  }

  /** What a lower-case character is replaced by; nothing when it separates words. */
  function Replacement(c: char): (r: string)
    ensures forall i | 0 <= i < |r| :: r[i] != ' '
  {
    if c in {'à', 'â', 'ä'} then "a"
    else if c == 'ç' then "c"
    else if c in {'é', 'è', 'ê', 'ë'} then "e"
    else if c in {'î', 'ï'} then "i"
    else if c in {'ô', 'ö'} then "o"
    else if c in {'ù', 'û', 'ü'} then "u"
    else if c == 'œ' then "oe"
    else if c == 'æ' then "ae"
    else if IsPlain(c) || IsCapital(c) then [c]
    else ""
  }

  function Lowered(value: string, other: char -> string): string {
    if value == "" then "" else Lowered(value[..|value| - 1], other) + Lower(value[|value| - 1], other)
  }

  predicate AfterSpace(s: string) {
    s == "" || s[|s| - 1] == ' '
  }

  /** The text built up by the loop over the lower-cased characters. */
  function Spaced(text: string): string {
    if text == "" then ""
    else
      var before := Spaced(text[..|text| - 1]);
      var r := Replacement(text[|text| - 1]);
      if r != "" then before + r else if AfterSpace(before) then before else before + " "
  }

  function TrimEnd(s: string): string {
    if s != "" && s[|s| - 1] == ' ' then TrimEnd(s[..|s| - 1]) else s
  }

  function TrimStart(s: string): string {
    if s != "" && s[0] == ' ' then TrimStart(s[1..]) else s
  }

  function Normal(value: string, other: char -> string): string {
    TrimStart(TrimEnd(Spaced(Lowered(value, other))))
  }

  /** `normalize_for_match`, with its flag. */
  method NormalizeForMatch(value: string, other: char -> string) returns (normalized: string)
    ensures normalized == Normal(value, other)
  {
    var text := Lowered(value, other);
    normalized := "";
    var previousWasSpace := true;
    for i := 0 to |text|
      invariant normalized == Spaced(text[..i])
      invariant previousWasSpace == AfterSpace(normalized)
    {
      SpacedMore(text, i);
      var r := Replacement(text[i]);
      if r != "" {
        normalized := normalized + r;
        previousWasSpace := false;
      } else if !previousWasSpace {
        normalized := normalized + " ";
        previousWasSpace := true;
      }
    }
    assert text[..|text|] == text;
    normalized := TrimStart(TrimEnd(normalized));
  }

  /** What one character becomes on its own: accented letters lose their accent, ligatures come apart, capitals
      are lowered, and everything that is neither a letter nor a digit vanishes. */
  lemma OneCharacter(c: char, other: char -> string)
    requires (c as int) >= 128 ==> other(c) == [c]
    ensures Normal([c], other) ==
      if c == 'à' || c == 'â' || c == 'ä' then "a"
      else if c == 'ç' then "c"
      else if c == 'é' || c == 'è' || c == 'ê' || c == 'ë' then "e"
      else if c == 'î' || c == 'ï' then "i"
      else if c == 'ô' || c == 'ö' then "o"
      else if c == 'ù' || c == 'û' || c == 'ü' then "u"
      else if c == 'œ' then "oe"
      else if c == 'æ' then "ae"
      else if 'A' <= c <= 'Z' then [('a' as int + (c as int - 'A' as int)) as char]
      else if 'a' <= c <= 'z' || '0' <= c <= '9' then [c]
      else ""
  {
    NormalOfOne(c, other);
  }

  lemma NormalOfOne(c: char, other: char -> string)
    requires (c as int) >= 128 ==> other(c) == [c]
    ensures Lower(c, other) == [Lower(c, other)[0]] && Normal([c], other) == Replacement(Lower(c, other)[0])
  {
    var l := Lower(c, other);
    assert [c][..0] == "";
    assert Lowered([c], other) == l;
    SpacedOfOne(l[0]);
    Untrimmed(Replacement(l[0]));
  }

  lemma SpacedOfOne(c: char)
    ensures Spaced([c]) == Replacement(c)
  {
    assert [c][..0] == "" && Spaced("") == "";
  }

  lemma Untrimmed(s: string)
    requires forall i | 0 <= i < |s| :: s[i] != ' '
    ensures TrimStart(TrimEnd(s)) == s
  {
  }

  lemma SpacedMore(text: string, i: nat)
    requires i < |text|
    ensures var before, r := Spaced(text[..i]), Replacement(text[i]);
      Spaced(text[..i + 1]) == before + if r != "" then r else if AfterSpace(before) then "" else " "
    ensures Replacement(text[i]) != "" ==> !AfterSpace(Spaced(text[..i]) + Replacement(text[i]))
  {
    assert text[..i + 1][..i] == text[..i];
  }

  // --- Normal forms ---------------------------------------------------------------------------

  /** Words of plain characters, with single spaces between them and none at the ends. */
  predicate SingleSpaced(s: string) {
    && (forall i | 0 <= i < |s| :: IsPlain(s[i]) || s[i] == ' ')
    && (s != "" ==> s[0] != ' ' && s[|s| - 1] != ' ')
    && forall i | 0 <= i < |s| - 1 :: !(s[i] == ' ' && s[i + 1] == ' ')
  }

  /** As `SingleSpaced`, but a space may end the text. */
  predicate Building(s: string) {
    && (forall i | 0 <= i < |s| :: IsPlain(s[i]) || s[i] == ' ')
    && (s != "" ==> s[0] != ' ')
    && forall i | 0 <= i < |s| - 1 :: !(s[i] == ' ' && s[i + 1] == ' ')
  }

  lemma {:induction false} NoCapitals(value: string, other: char -> string)
    requires Lowers(other)
    ensures forall i | 0 <= i < |Lowered(value, other)| :: !IsCapital(Lowered(value, other)[i])
  {
    if value != "" {
      NoCapitals(value[..|value| - 1], other);
    }
  }

  lemma {:induction false} SpacedBuilds(text: string)
    requires forall i | 0 <= i < |text| :: !IsCapital(text[i])
    ensures Building(Spaced(text))
  {
    if text != "" {
      SpacedBuilds(text[..|text| - 1]);
    }
  }

  lemma {:induction false} IsNormal(value: string, other: char -> string)
    requires Lowers(other)
    ensures SingleSpaced(Normal(value, other))
  {
    NoCapitals(value, other);
    var s := Spaced(Lowered(value, other));
    SpacedBuilds(Lowered(value, other));
    if s != "" && s[|s| - 1] == ' ' {
      assert TrimEnd(s[..|s| - 1]) == s[..|s| - 1];
    }
  }

  lemma {:induction false} LowerFixes(s: string, other: char -> string)
    requires forall i | 0 <= i < |s| :: IsPlain(s[i]) || s[i] == ' '
    ensures Lowered(s, other) == s
  {
    if s != "" {
      LowerFixes(s[..|s| - 1], other);
    }
  }

  lemma ReplacesPlain(c: char)
    ensures IsPlain(c) ==> Replacement(c) == [c]
    ensures c == ' ' ==> Replacement(c) == ""
  {
  }

  lemma {:induction false} SpacedFixes(s: string)
    requires Building(s)
    ensures Spaced(s) == s
  {
    if s != "" {
      var before, c := s[..|s| - 1], s[|s| - 1];
      assert s == before + [c];
      assert Building(before) && (c == ' ' ==> !AfterSpace(before));
      SpacedFixes(before);
      ReplacesPlain(c);
      assert IsPlain(c) || c == ' ';
    }
  }

  /** Normal forms are left as they are, so normalising twice changes nothing. */
  lemma NormalFixes(s: string, other: char -> string)
    requires SingleSpaced(s)
    ensures Normal(s, other) == s
  {
    LowerFixes(s, other);
    SpacedFixes(s);
  }

  lemma Idempotent(value: string, other: char -> string)
    requires Lowers(other)
    ensures SingleSpaced(Normal(value, other))
    ensures Normal(Normal(value, other), other) == Normal(value, other)
  {
    IsNormal(value, other);
    NormalFixes(Normal(value, other), other);
  }

  // --- What the normal form of a longer text is ------------------------------------------------

  lemma LastOfBoth(a: string, b: string)
    requires b != ""
    ensures (a + b)[..|a + b| - 1] == a + b[..|b| - 1] && (a + b)[|a + b| - 1] == b[|b| - 1]
  {
  }

  lemma LoweredStep(a: string, b: string, other: char -> string)
    requires b != ""
    ensures Lowered(a + b, other) == Lowered(a + b[..|b| - 1], other) + Lower(b[|b| - 1], other)
    ensures Lowered(b, other) == Lowered(b[..|b| - 1], other) + Lower(b[|b| - 1], other)
  {
    LastOfBoth(a, b);
  }

  lemma Associates(a: string, b: string, c: string)
    ensures (a + b) + c == a + (b + c)
  {
  }

  lemma {:induction false} LoweredJoins(a: string, b: string, other: char -> string)
    ensures Lowered(a + b, other) == Lowered(a, other) + Lowered(b, other)
  {
    if b == "" {
      assert a + b == a;
    } else {
      var n := |b| - 1;
      LoweredJoins(a, b[..n], other);
      LoweredStep(a, b, other);
      Associates(Lowered(a, other), Lowered(b[..n], other), Lower(b[n], other));
    }
  }

  /** The text after one character more. */
  function Add(before: string, c: char): string {
    var r := Replacement(c);
    if r != "" then before + r else if AfterSpace(before) then before else before + " "
  }

  lemma SpacedAdds(text: string)
    requires text != ""
    ensures Spaced(text) == Add(Spaced(text[..|text| - 1]), text[|text| - 1])
  {
  }

  lemma SpacedStep(a: string, b: string)
    requires b != ""
    ensures Spaced(a + b) == Add(Spaced(a + b[..|b| - 1]), b[|b| - 1])
    ensures Spaced(b) == Add(Spaced(b[..|b| - 1]), b[|b| - 1])
  {
    SpacedAdds(a + b);
    LastOfBoth(a, b);
  }

  lemma AddBehind(x: string, y: string, c: char)
    requires y != "" || AfterSpace(x) || Replacement(c) != ""
    ensures Add(x + y, c) == x + Add(y, c)
  {
    if y == "" {
      assert x + y == x;
    }
    assert (x + y) + Replacement(c) == x + (y + Replacement(c));
    assert (x + y) + " " == x + (y + " ");
  }

  /** Behind a space, or in front of a character that is kept, a text is spaced as it would be alone. */
  lemma {:induction false} SpacedJoins(a: string, b: string)
    requires AfterSpace(Spaced(a)) || b == "" || Replacement(b[0]) != ""
    ensures Spaced(a + b) == Spaced(a) + Spaced(b)
  {
    if b == "" {
      assert a + b == a;
    } else {
      var n := |b| - 1;
      SpacedJoins(a, b[..n]);
      SpacedStep(a, b);
      if n > 0 && !AfterSpace(Spaced(a)) {
        OpensSpaced(b[..n]);
      }
      AddBehind(Spaced(a), Spaced(b[..n]), b[n]);
    }
  }

  lemma {:induction false} OpensSpaced(b: string)
    requires b != "" && Replacement(b[0]) != ""
    ensures Spaced(b) != ""
  {
    if |b| > 1 {
      OpensSpaced(b[..|b| - 1]);
    } else {
      assert b[..0] == "";
    }
  }

  /** A built text without the space that may end it. */
  function Finished(s: string): string {
    if s != "" && s[|s| - 1] == ' ' then s[..|s| - 1] else s
  }

  lemma TrimsOnce(s: string)
    requires Building(s)
    ensures TrimStart(TrimEnd(s)) == Finished(s)
  {
    if s != "" && s[|s| - 1] == ' ' {
      assert TrimEnd(s[..|s| - 1]) == s[..|s| - 1];
    }
  }

  lemma NormalIs(value: string, other: char -> string)
    requires Lowers(other)
    ensures Building(Spaced(Lowered(value, other))) && Normal(value, other) == Finished(Spaced(Lowered(value, other)))
  {
    NoCapitals(value, other);
    SpacedBuilds(Lowered(value, other));
    TrimsOnce(Spaced(Lowered(value, other)));
  }

  /** Neither a letter nor a digit. */
  predicate Separates(c: char) {
    (c as int) < 128 && !IsPlain(c) && !IsCapital(c)
  }

  /** Words that a separator keeps apart stay apart by one space, and a separator at an end leaves no trace. */
  lemma SeparatorsSeparate(a: string, c: char, b: string, other: char -> string)
    requires Lowers(other) && Separates(c)
    ensures var x, y := Normal(a, other), Normal(b, other);
      Normal(a + [c] + b, other) == if x == "" then y else if y == "" then x else x + " " + y
  {
    NormalIs(a, other);
    NormalIs(b, other);
    NormalIs(a + [c] + b, other);
    LoweredAround(a, c, b, other);
    SpacedAround(Lowered(a, other), c, Lowered(b, other));
    Glued(Spaced(Lowered(a, other)), Spaced(Lowered(b, other)));
  }

  lemma LoweredAround(a: string, c: char, b: string, other: char -> string)
    requires Separates(c)
    ensures Lowered(a + [c] + b, other) == Lowered(a, other) + [c] + Lowered(b, other)
  {
    LoweredJoins(a + [c], b, other);
    LoweredJoins(a, [c], other);
    assert [c][..0] == "";
  }

  lemma SpacedAround(s: string, c: char, t: string)
    requires Separates(c)
    ensures Spaced(s + [c] + t) == Spaced(s) + (if AfterSpace(Spaced(s)) then "" else " ") + Spaced(t)
  {
    assert (s + [c])[..|s|] == s && (s + [c])[|s|] == c && Replacement(c) == "";
    SpacedAdds(s + [c]);
    if AfterSpace(Spaced(s)) {
      assert Spaced(s) + "" == Spaced(s);
    } else {
      assert Spaced(s + [c]) == Spaced(s) + " ";
    }
    SpacedJoins(s + [c], t);
  }

  lemma Glued(s: string, t: string)
    requires Building(s) && Building(t)
    ensures Finished(s + (if AfterSpace(s) then "" else " ") + t) ==
      if Finished(s) == "" then Finished(t) else if Finished(t) == "" then Finished(s) else Finished(s) + " " + Finished(t)
  {
    var front := s + if AfterSpace(s) then "" else " ";
    if t == "" {
      assert front + t == front;
    } else {
      FinishedBehind(front, t);
    }
  }

  /** Where two texts meet in characters that are kept, their normal forms are put together without a space. */
  lemma LettersJoin(a: string, b: string, other: char -> string)
    requires Lowers(other) && Lowered(b, other) != "" && Replacement(Lowered(b, other)[0]) != ""
    requires Lowered(a, other) != "" && Replacement(Lowered(a, other)[|Lowered(a, other)| - 1]) != ""
    ensures Normal(a + b, other) == Normal(a, other) + Normal(b, other)
  {
    var s, t := Lowered(a, other), Lowered(b, other);
    NormalIs(a, other);
    NormalIs(b, other);
    NormalIs(a + b, other);
    LoweredJoins(a, b, other);
    SpacedJoins(s, t);
    EndsKept(s);
    OpensSpaced(t);
    FinishedBehind(Spaced(s), Spaced(t));
  }

  lemma FinishedBehind(s: string, t: string)
    requires t != ""
    ensures Finished(s + t) == s + Finished(t)
  {
    assert (s + t)[..|s| + |t| - 1] == s + t[..|t| - 1];
  }

  lemma EndsKept(s: string)
    requires s != "" && Replacement(s[|s| - 1]) != ""
    ensures Spaced(s) != "" && Finished(Spaced(s)) == Spaced(s)
  {
    var r := Replacement(s[|s| - 1]);
    assert Spaced(s) == Spaced(s[..|s| - 1]) + r;
    assert Spaced(s)[|Spaced(s)| - 1] == r[|r| - 1];
  }

  // --- Phrases as runs of words ---------------------------------------------------------------

  predicate OccursAt(text: string, part: string, i: nat) {
    i + |part| <= |text| && text[i..i + |part|] == part
  }

  predicate Contains(text: string, part: string) {
    exists i | 0 <= i <= |text| :: OccursAt(text, part, i)
  }

  /** `contains_normalized_phrase` */
  predicate ContainsPhrase(query: string, term: string) {
    Contains(" " + query + " ", " " + term + " ")
  }

  function FirstSpace(s: string): (i: nat)
    ensures i <= |s| && (i < |s| ==> s[i] == ' ')
    ensures forall j | 0 <= j < i :: s[j] != ' '
  {
    if s == "" || s[0] == ' ' then 0 else 1 + FirstSpace(s[1..])
  }

  function Words(s: string): seq<string> {
    if s == "" then []
    else
      var i := FirstSpace(s);
      [s[..i]] + if i == |s| then [] else Words(s[i + 1..])
  }

  predicate IsWord(w: string) {
    w != "" && forall i | 0 <= i < |w| :: w[i] != ' '
  }

  predicate AreWords(ws: seq<string>) {
    forall i | 0 <= i < |ws| :: IsWord(ws[i])
  }

  /** Each word followed by a space. */
  function Trailing(ws: seq<string>): string {
    if ws == [] then "" else ws[0] + " " + Trailing(ws[1..])
  }

  lemma TailIsSpaced(s: string, i: nat)
    requires SingleSpaced(s) && i < |s| && s[i] == ' '
    ensures i + 1 < |s| && SingleSpaced(s[i + 1..]) && s == s[..i] + " " + s[i + 1..]
  {
  }

  lemma {:induction false} WordsTrail(s: string)
    requires SingleSpaced(s) && s != ""
    ensures AreWords(Words(s)) && Words(s) != [] && Trailing(Words(s)) == s + " "
  {
    var i := FirstSpace(s);
    if i == |s| {
      assert s[..i] == s;
    } else {
      var rest := s[i + 1..];
      TailIsSpaced(s, i);
      WordsTrail(rest);
      assert Words(s) == [s[..i]] + Words(rest);
      Associates(s[..i] + " ", rest, " ");
    }
  }

  lemma {:induction false} TrailingJoins(a: seq<string>, b: seq<string>)
    ensures Trailing(a + b) == Trailing(a) + Trailing(b)
  {
    if a == [] {
      assert a + b == b;
    } else {
      TrailingJoins(a[1..], b);
      assert (a + b)[1..] == a[1..] + b;
    }
  }

  /** Every space of a padded text precedes a word or ends the text. */
  lemma {:induction false} SpaceBeforeWord(ws: seq<string>, o: nat) returns (i: nat)
    requires AreWords(ws) && o < |" " + Trailing(ws)| && (" " + Trailing(ws))[o] == ' '
    ensures i <= |ws| && o == |Trailing(ws[..i])|
  {
    if o == 0 {
      i := 0;
    } else {
      var w, rest := ws[0], ws[1..];
      assert Trailing(ws) == w + " " + Trailing(rest);
      assert (" " + Trailing(ws))[o] == Trailing(ws)[o - 1];
      assert o >= |w| + 1;
      assert (" " + Trailing(ws))[o] == (" " + Trailing(rest))[o - |w| - 1];
      var j := SpaceBeforeWord(rest, o - |w| - 1);
      i := j + 1;
      assert ws[..i] == [w] + rest[..j];
      TrailingJoins([w], rest[..j]);
      assert Trailing([w]) == w + " " + Trailing([]);
    }
  }

  /** A prefix of the text made of whole words is made of a prefix of the words. */
  lemma {:induction false} PrefixIsWords(t: seq<string>, s: seq<string>)
    requires AreWords(t) && AreWords(s) && Trailing(t) <= Trailing(s)
    ensures t <= s
  {
    if t != [] {
      assert s != [];
      var a, b := t[0], s[0];
      var x, y := Trailing(t), Trailing(s);
      assert x == a + " " + Trailing(t[1..]) && y == b + " " + Trailing(s[1..]);
      assert x[|a|] == ' ' && y[|b|] == ' ';
      assert x[|b|] == y[|b|] || |b| >= |x|;
      assert |a| == |b|;
      assert a == x[..|a|] && b == y[..|b|] && x[..|a|] == y[..|a|];
      assert Trailing(t[1..]) == x[|a| + 1..] && Trailing(s[1..]) == y[|b| + 1..];
      PrefixIsWords(t[1..], s[1..]);
      assert t == [t[0]] + t[1..] && s == [s[0]] + s[1..];
    }
  }

  predicate RunAt(ws: seq<string>, run: seq<string>, i: nat) {
    i + |run| <= |ws| && ws[i..i + |run|] == run
  }

  predicate HasRun(ws: seq<string>, run: seq<string>) {
    exists i | 0 <= i <= |ws| :: RunAt(ws, run, i)
  }

  lemma OccursBetween(before: string, part: string, after: string)
    ensures Contains(before + part + after, part)
  {
    assert OccursAt(before + part + after, part, |before|);
  }

  /** A padded text ends in a space. */
  lemma {:induction false} EndsInSpace(ws: seq<string>) returns (body: string)
    ensures " " + Trailing(ws) == body + " " && |body| == |Trailing(ws)|
  {
    if ws == [] {
      body := "";
    } else {
      var rest := EndsInSpace(ws[1..]);
      body := " " + ws[0] + rest;
      assert Trailing(ws) == ws[0] + (" " + Trailing(ws[1..]));
    }
  }

  lemma RunOccurs(q: seq<string>, t: seq<string>, i: nat)
    requires RunAt(q, t, i)
    ensures Contains(" " + Trailing(q), " " + Trailing(t))
  {
    var before, after := q[..i], q[i + |t|..];
    assert q == before + (t + after);
    TrailingJoins(before, t + after);
    TrailingJoins(t, after);
    var body := EndsInSpace(before);
    var part := " " + Trailing(t);
    Regroup(body, " ", Trailing(t), Trailing(after));
    Pads(Trailing(before), Trailing(t) + Trailing(after));
    OccursBetween(body, part, Trailing(after));
  }

  lemma Regroup(a: string, b: string, c: string, d: string)
    ensures (a + b) + (c + d) == a + (b + c) + d
  {
  }

  lemma Pads(a: string, b: string)
    ensures " " + (a + b) == (" " + a) + b
  {
  }

  lemma Cancel(a: string, b: string, c: string, d: string)
    requires a + b == c + d && |a| == |c|
    ensures b == d
  {
    assert b == (a + b)[|a|..] && d == (c + d)[|c|..];
  }

  lemma OccurrenceIsRun(q: seq<string>, t: seq<string>, o: nat)
    requires AreWords(q) && AreWords(t) && OccursAt(" " + Trailing(q), " " + Trailing(t), o)
    ensures HasRun(q, t)
  {
    var text, part := " " + Trailing(q), " " + Trailing(t);
    var rest := text[o + |part|..];
    assert text == text[..o] + part + rest;
    assert (text[..o] + part + rest)[o] == ' ';
    var i := SpaceBeforeWord(q, o);
    Regroup(text[..o], " ", Trailing(t), rest);
    RestOfText(q, i, text[..o] + " ", Trailing(t) + rest);
    PrefixIsWords(t, q[i..]);
    assert RunAt(q, t, i);
  }

  /** What follows in a padded text where a word begins are the words from there on. */
  lemma RestOfText(q: seq<string>, i: nat, front: string, rest: string)
    requires i <= |q| && " " + Trailing(q) == front + rest && |front| == 1 + |Trailing(q[..i])|
    ensures Trailing(q[i..]) == rest
  {
    TrailingJoins(q[..i], q[i..]);
    assert q == q[..i] + q[i..];
    Pads(Trailing(q[..i]), Trailing(q[i..]));
    Cancel(" " + Trailing(q[..i]), Trailing(q[i..]), front, rest);
  }

  /** On normal forms, the padded text of the query contains that of a non-empty term exactly when the words of
      the term are a contiguous run of the query's words. */
  lemma PhraseIsRun(query: string, term: string)
    requires SingleSpaced(query) && SingleSpaced(term) && term != ""
    ensures ContainsPhrase(query, term) <==> HasRun(Words(query), Words(term))
  {
    WordsTrail(term);
    assert " " + term + " " == " " + Trailing(Words(term));
    if query == "" {
      assert Words(query) == [] && |" " + query + " "| == 2 && |" " + term + " "| >= 3;
    } else {
      WordsTrail(query);
      assert " " + query + " " == " " + Trailing(Words(query));
      if ContainsPhrase(query, term) {
        var o: nat :| o <= |" " + query + " "| && OccursAt(" " + query + " ", " " + term + " ", o);
        OccurrenceIsRun(Words(query), Words(term), o);
      }
      if HasRun(Words(query), Words(term)) {
        var i: nat :| i <= |Words(query)| && RunAt(Words(query), Words(term), i);
        RunOccurs(Words(query), Words(term), i);
      }
    }
  }

  /** The empty term, padded, is two spaces, which only the empty query has. */
  lemma EmptyPhrase(query: string)
    requires SingleSpaced(query)
    ensures ContainsPhrase(query, "") <==> query == ""
  {
    var text := " " + query + " ";
    if query == "" {
      assert OccursAt(text, " " + "" + " ", 0);
    }
    forall o: nat | o <= |text| && OccursAt(text, " " + "" + " ", o) ensures query == "" {
      assert text[o..o + 2][0] == ' ' && text[o..o + 2][1] == ' ';
      assert text[o] == ' ' && text[o + 1] == ' ';
    }
  }
}
