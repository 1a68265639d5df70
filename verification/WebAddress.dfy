// The web address suggested for a salon (signup-form.ts): the name made into
// a slug, then cleared of the words that would make it look like the
// platform's own.
module WebAddress {
  import opened Common
  import opened Text

  const WORDS := ["kiraroom", "kira-room", "soporte", "support"]
  const MAX_LENGTH := 63
  const PASSES := 10

  // ------------------------------------------------------------------ slugs

  predicate IsSlugChar(c: char) { 'a' <= c <= 'z' || '0' <= c <= '9' }

  // Accents folded and letters lower-cased, one character at a time.
  function Fold(name: string, fold: char -> string): (r: string) {
    if name == [] then [] else fold(name[0]) + Fold(name[1..], fold)
  }

  // Each run of other characters becomes one hyphen. `after` says whether
  // the run has begun already.
  function Hyphenate(s: string, after: bool := false): (r: string) {
    if s == [] then []
    else if IsSlugChar(s[0]) then [s[0]] + Hyphenate(s[1..], false)
    else if after then Hyphenate(s[1..], true)
    else ['-'] + Hyphenate(s[1..], true)
  }

  // One hyphen off each end.
  function TrimEnds(s: string): (r: string) {
    var t := if s != [] && s[0] == '-' then s[1..] else s;
    if t != [] && t[|t| - 1] == '-' then t[..|t| - 1] else t
  }

  function DropTrailing(s: string): (r: string) {
    if s != [] && s[|s| - 1] == '-' then DropTrailing(s[..|s| - 1]) else s
  }

  function DropLeading(s: string): (r: string) {
    if s != [] && s[0] == '-' then DropLeading(s[1..]) else s
  }

  function Take(s: string, n: nat): (r: string) { if |s| <= n then s else s[..n] }

  function SlugifySalonName(name: string, fold: char -> string): (r: string) {
    DropTrailing(Take(TrimEnds(Hyphenate(Fold(name, fold))), MAX_LENGTH))
  }

  function TypedWebAddress(input: string, fold: char -> string): (r: string) {
    Take(DropLeading(Hyphenate(Fold(input, fold))), MAX_LENGTH)
  }

  // Letters, digits and single hyphens.
  predicate Spaced(s: string) {
    && (forall i :: 0 <= i < |s| ==> IsSlugChar(s[i]) || s[i] == '-')
    && (forall i :: 0 < i < |s| ==> s[i - 1] != '-' || s[i] != '-')
  }

  // ... and none at either end.
  predicate WellFormed(s: string) {
    Spaced(s) && (s != [] ==> s[0] != '-' && s[|s| - 1] != '-')
  }

  lemma {:induction false} HyphenateSpaced(s: string, after: bool)
    ensures Spaced(Hyphenate(s, after))
    ensures after && Hyphenate(s, after) != [] ==> Hyphenate(s, after)[0] != '-'
  {
    if s != [] {
      HyphenateSpaced(s[1..], !IsSlugChar(s[0]));
    }
  }

  lemma {:induction false} HyphenateKeeps(s: string, after: bool)
    requires Spaced(s) && (after && s != [] ==> s[0] != '-')
    ensures Hyphenate(s, after) == s
  {
    if s != [] {
      HyphenateKeeps(s[1..], !IsSlugChar(s[0]));
    }
  }

  // The letters and digits of a name survive, in order, and whatever stood
  // between two of them is one hyphen.
  lemma {:induction false} HyphenateKeepsLetters(s: string, after: bool)
    ensures Filter(Hyphenate(s, after), IsSlugChar) == Filter(s, IsSlugChar)
    ensures s != [] && !IsSlugChar(s[0]) && !after ==> Hyphenate(s, after) != [] && Hyphenate(s, after)[0] == '-'
  {
    if s != [] {
      HyphenateKeepsLetters(s[1..], !IsSlugChar(s[0]));
    }
  }

  lemma {:induction false} FoldKeeps(s: string, fold: char -> string)
    requires forall i :: 0 <= i < |s| ==> fold(s[i]) == [s[i]]
    ensures Fold(s, fold) == s
  {
    if s != [] { FoldKeeps(s[1..], fold); }
  }

  lemma TrimEndsWellFormed(s: string)
    requires Spaced(s)
    ensures WellFormed(TrimEnds(s)) && |TrimEnds(s)| <= |s|
    ensures WellFormed(s) ==> TrimEnds(s) == s
  {
  }

  lemma DropTrailingOnce(s: string)
    requires Spaced(s)
    ensures DropTrailing(s) == if s != [] && s[|s| - 1] == '-' then s[..|s| - 1] else s
  {
  }

  // A salon's name always gives a well-formed slug of at most 63 characters.
  lemma SlugWellFormed(name: string, fold: char -> string)
    ensures WellFormed(SlugifySalonName(name, fold)) && |SlugifySalonName(name, fold)| <= 63
  {
    var h := Hyphenate(Fold(name, fold));
    HyphenateSpaced(Fold(name, fold), false);
    TrimEndsWellFormed(h);
    DropTrailingOnce(Take(TrimEnds(h), MAX_LENGTH));
  }

  lemma HyphenHasNoLetter(s: string)
    requires s != []
    ensures s[0] == '-' ==> Filter(s[1..], IsSlugChar) == Filter(s, IsSlugChar)
    ensures s[|s| - 1] == '-' ==> Filter(s[..|s| - 1], IsSlugChar) == Filter(s, IsSlugChar)
  {
    var n := |s| - 1;
    FilterAppend(s[..n], [s[n]], IsSlugChar);
    assert s[..n] + [s[n]] == s;
    assert [s[n]][1..] == [];
  }

  lemma TrimEndsKeepsLetters(s: string)
    ensures Filter(TrimEnds(s), IsSlugChar) == Filter(s, IsSlugChar)
  {
    if s != [] { HyphenHasNoLetter(s); }
    var t := if s != [] && s[0] == '-' then s[1..] else s;
    if t != [] { HyphenHasNoLetter(t); }
  }

  // A slug has the letters and digits of the name, in order, and all of them
  // unless it was cut for its length.
  lemma SlugKeepsLetters(name: string, fold: char -> string)
    ensures var letters := Filter(Fold(name, fold), IsSlugChar); var slug := SlugifySalonName(name, fold);
      Filter(slug, IsSlugChar) <= letters && (Filter(slug, IsSlugChar) == letters || |slug| >= 62)
  {
    hide *;
    var h := Hyphenate(Fold(name, fold));
    HyphenateKeepsLetters(Fold(name, fold), false);
    HyphenateSpaced(Fold(name, fold), false);
    TrimEndsKeepsLetters(h);
    TrimEndsWellFormed(h);
    CutKeepsLetters(TrimEnds(h));
    SlugIsCut(name, fold);
  }

  lemma SlugIsCut(name: string, fold: char -> string)
    ensures SlugifySalonName(name, fold) == DropTrailing(Take(TrimEnds(Hyphenate(Fold(name, fold))), MAX_LENGTH))
  {
    hide Hyphenate, Fold, TrimEnds, DropTrailing;
  }

  lemma CutKeepsLetters(t: string)
    requires WellFormed(t)
    ensures var letters := Filter(t, IsSlugChar); var slug := DropTrailing(Take(t, MAX_LENGTH));
      Filter(slug, IsSlugChar) <= letters && (Filter(slug, IsSlugChar) == letters || |slug| >= 62)
  {
    var cut := Take(t, MAX_LENGTH);
    DropTrailingOnce(cut);
    if cut != [] { HyphenHasNoLetter(cut); }
    assert cut + t[|cut|..] == t;
    FilterAppend(cut, t[|cut|..], IsSlugChar);
    hide Filter, DropTrailing;
  }

  // A well-formed slug that fits is its own slug, so slugifying is idempotent
  // for every folding that leaves slug characters alone.
  lemma SlugOfSlug(s: string, fold: char -> string)
    requires WellFormed(s) && |s| <= 63
    requires forall c :: IsSlugChar(c) || c == '-' ==> fold(c) == [c]
    ensures SlugifySalonName(s, fold) == s
  {
    FoldKeeps(s, fold);
    HyphenateKeeps(s, false);
    TrimEndsWellFormed(s);
  }

  lemma SlugifyIdempotent(name: string, fold: char -> string)
    requires forall c :: IsSlugChar(c) || c == '-' ==> fold(c) == [c]
    ensures SlugifySalonName(SlugifySalonName(name, fold), fold) == SlugifySalonName(name, fold)
  {
    SlugWellFormed(name, fold);
    SlugOfSlug(SlugifySalonName(name, fold), fold);
  }

  lemma PendingHyphen(h: string)
    requires Spaced(h)
    ensures var typed := Take(DropLeading(h), MAX_LENGTH); var slug := DropTrailing(Take(TrimEnds(h), MAX_LENGTH));
      && (typed == slug || typed == slug + "-")
      && Spaced(typed) && |typed| <= MAX_LENGTH && (typed != [] ==> typed[0] != '-')
  {
    DropLeadingOnce(h);
    TrimEndsWellFormed(h);
    DropTrailingOnce(Take(TrimEnds(h), MAX_LENGTH));
  }

  // The field as typed is the slug with, at most, one hyphen still pending at
  // its end, and typing it again changes nothing.
  lemma TypedIsPendingSlug(input: string, fold: char -> string)
    requires forall c :: IsSlugChar(c) || c == '-' ==> fold(c) == [c]
    ensures var typed := TypedWebAddress(input, fold); var slug := SlugifySalonName(input, fold);
      && (typed == slug || typed == slug + "-")
      && TypedWebAddress(typed, fold) == typed
  {
    var typed := TypedWebAddress(input, fold);
    HyphenateSpaced(Fold(input, fold), false);
    PendingHyphen(Hyphenate(Fold(input, fold)));
    FoldKeeps(typed, fold);
    HyphenateKeeps(typed, false);
  }

  lemma DropLeadingOnce(s: string)
    requires Spaced(s)
    ensures DropLeading(s) == if s != [] && s[0] == '-' then s[1..] else s
  {
  }

  // -------------------------------------------------------- lookalike words

  // Every occurrence from the left becomes a hyphen.
  function ReplaceAll(s: string, w: string): (r: string)
    requires w != []
  {
    if |s| < |w| then s
    else if w <= s then ['-'] + ReplaceAll(s[|w|..], w)
    else [s[0]] + ReplaceAll(s[1..], w)
  }

  // The slug is its parts with the word between them, and the result has
  // hyphens there instead.
  lemma {:induction false} ReplaceAllIsSplitJoin(s: string, w: string)
    requires w != []
    ensures Join(Split(s, w), "-") == ReplaceAll(s, w)
  {
    if |s| < |w| {
    } else if w <= s {
      ReplaceAllIsSplitJoin(s[|w|..], w);
      hide Join;
      JoinFront(s[0], Split(s[|w|..], w), "-");
    } else {
      ReplaceAllIsSplitJoin(s[1..], w);
      hide Join;
      JoinFront(s[0], Split(s[1..], w), "-");
    }
  }

  function ReplaceWords(s: string, words: seq<string>): (r: string)
    requires [] !in words
    decreases |words|
  {
    if words == [] then s else ReplaceWords(ReplaceAll(s, words[0]), words[1..])
  }

  // Each run of hyphens becomes one.
  function Collapse(s: string): (r: string) {
    if |s| < 2 then s
    else if s[0] == '-' && s[1] == '-' then Collapse(s[1..])
    else [s[0]] + Collapse(s[1..])
  }

  function Pass(s: string): (r: string) {
    TrimEnds(Collapse(ReplaceWords(s, WORDS)))
  }

  function Cleaned(s: string, passes: nat): (r: string)
    decreases passes
  {
    if passes == 0 || Pass(s) == s then s else Cleaned(Pass(s), passes - 1)
  }

  ghost predicate HasWord(s: string) {
    exists k :: 0 <= k < |WORDS| && Occurs(s, WORDS[k])
  }

  // withoutPlatformWords
  method WithoutPlatformWords(slug: string) returns (out: string)
    ensures out == Cleaned(slug, PASSES)
  {
    out := slug;
    for guard := 0 to PASSES
      invariant Cleaned(slug, PASSES) == Cleaned(out, PASSES - guard)
    {
      var next := out;
      for k := 0 to |WORDS|
        invariant ReplaceWords(out, WORDS) == ReplaceWords(next, WORDS[k..])
      {
        assert WORDS[k..][1..] == WORDS[k + 1..];
        next := ReplaceAll(next, WORDS[k]);
      }
      next := TrimEnds(Collapse(next));
      if next == out { break; }
      out := next;
    }
  }

  lemma {:induction false} ReplaceAllShrinks(s: string, w: string)
    requires w != []
    ensures |ReplaceAll(s, w)| <= |s|
    ensures Occurs(s, w) ==> |ReplaceAll(s, w)| <= |s| - |w| + 1
    ensures !Occurs(s, w) ==> ReplaceAll(s, w) == s
  {
    if |s| < |w| {
    } else if w <= s {
      assert OccursAt(s, w, 0);
      ReplaceAllShrinks(s[|w|..], w);
    } else {
      ReplaceAllShrinks(s[1..], w);
      if Occurs(s, w) {
        var i: nat :| OccursAt(s, w, i);
        assert i > 0 && s[1..][i - 1..i - 1 + |w|] == s[i..i + |w|];
        assert OccursAt(s[1..], w, i - 1);
      } else if Occurs(s[1..], w) {
        var i: nat :| OccursAt(s[1..], w, i);
        assert s[1..][i..i + |w|] == s[i + 1..i + 1 + |w|];
        assert OccursAt(s, w, i + 1);
      }
    }
  }

  predicate SlugText(s: string) {
    forall i :: 0 <= i < |s| ==> IsSlugChar(s[i]) || s[i] == '-'
  }

  lemma {:induction false} ReplaceAllText(s: string, w: string)
    requires w != [] && SlugText(s)
    ensures SlugText(ReplaceAll(s, w))
  {
    if |s| < |w| {
    } else if w <= s {
      ReplaceAllText(s[|w|..], w);
    } else {
      ReplaceAllText(s[1..], w);
    }
  }

  lemma {:induction false} ReplaceWordsShrinks(s: string, words: seq<string>)
    requires forall k :: 0 <= k < |words| ==> |words[k]| >= 7
    requires SlugText(s)
    ensures SlugText(ReplaceWords(s, words)) && |ReplaceWords(s, words)| <= |s|
    ensures (forall k :: 0 <= k < |words| ==> !Occurs(s, words[k])) ==> ReplaceWords(s, words) == s
    ensures (exists k :: 0 <= k < |words| && Occurs(s, words[k])) ==> |ReplaceWords(s, words)| <= |s| - 6
    decreases |words|
  {
    if words != [] {
      var t := ReplaceAll(s, words[0]);
      ReplaceAllShrinks(s, words[0]);
      ReplaceAllText(s, words[0]);
      ReplaceWordsShrinks(t, words[1..]);
      if !Occurs(s, words[0]) && exists k :: 0 <= k < |words| && Occurs(s, words[k]) {
        var k :| 0 <= k < |words| && Occurs(s, words[k]);
        assert Occurs(t, words[1..][k - 1]);
      }
    }
  }

  lemma {:induction false} CollapseSpaced(s: string)
    requires SlugText(s)
    ensures Spaced(Collapse(s)) && |Collapse(s)| <= |s|
    ensures s != [] ==> Collapse(s) != [] && Collapse(s)[0] == s[0]
    ensures Spaced(s) ==> Collapse(s) == s
  {
    if |s| >= 2 {
      CollapseSpaced(s[1..]);
    }
  }

  // One pass leaves a well-formed slug without lookalike words alone, and
  // takes at least six characters off any other.
  lemma PassShrinks(s: string)
    requires WellFormed(s)
    ensures WellFormed(Pass(s))
    ensures !HasWord(s) ==> Pass(s) == s
    ensures HasWord(s) ==> |Pass(s)| <= |s| - 6
  {
    ReplaceWordsShrinks(s, WORDS);
    var r := ReplaceWords(s, WORDS);
    CollapseSpaced(r);
    TrimEndsWellFormed(Collapse(r));
  }

  lemma ShortHasNoWord(s: string)
    requires |s| < 7
    ensures !HasWord(s)
  {
    forall k | 0 <= k < |WORDS| ensures !Occurs(s, WORDS[k]) {
      assert |WORDS[k]| >= 7;
    }
  }

  // Main result on the loop: n passes clear any well-formed slug shorter than
  // 6n + 7 characters, whatever words the replacements bring together.
  lemma {:induction false} PassesSuffice(s: string, passes: nat)
    requires WellFormed(s) && |s| < 6 * passes + 7
    ensures WellFormed(Cleaned(s, passes)) && !HasWord(Cleaned(s, passes))
    ensures |Cleaned(s, passes)| <= |s|
    ensures Cleaned(s, passes) == s <==> !HasWord(s)
    decreases passes
  {
    hide Pass, HasWord, WellFormed;
    PassShrinks(s);
    if passes == 0 {
      ShortHasNoWord(s);
    } else if HasWord(s) {
      PassesSuffice(Pass(s), passes - 1);
    }
  }

  // ------------------------------------------------------- what is left of it

  // One occurrence of a listed word becomes a hyphen.
  predicate CutAt(s: string, t: string, k: nat, i: nat) {
    k < |WORDS| && OccursAt(s, WORDS[k], i) && t == s[..i] + "-" + s[i + |WORDS[k]|..]
  }

  // One hyphen goes that stands at an end or beside another.
  predicate TidyAt(s: string, t: string, i: nat) {
    && i < |s| && s[i] == '-' && t == s[..i] + s[i + 1..]
    && (i == 0 || i == |s| - 1 || s[i - 1] == '-' || s[i + 1] == '-')
  }

  ghost predicate Step(s: string, t: string) {
    (exists k: nat, i: nat :: CutAt(s, t, k, i)) || (exists i: nat :: TidyAt(s, t, i))
  }

  ghost predicate IsPath(path: seq<string>, s: string, t: string) {
    && path != [] && path[0] == s && path[|path| - 1] == t
    && forall j :: 0 < j < |path| ==> Step(path[j - 1], path[j])
  }

  // t is s with only occurrences of listed words cut out and hyphens tidied.
  ghost predicate Reached(s: string, t: string) { exists path :: IsPath(path, s, t) }

  lemma ReachedNothing(s: string)
    ensures Reached(s, s)
  {
    assert IsPath([s], s, s);
  }

  lemma ReachedThen(s: string, t: string, u: string)
    requires Reached(s, t) && Reached(t, u)
    ensures Reached(s, u)
  {
    var a :| IsPath(a, s, t);
    var b :| IsPath(b, t, u);
    var c := a + b[1..];
    hide Step;
    forall j | 0 < j < |c| ensures Step(c[j - 1], c[j]) {
      if j < |a| {
        assert c[j - 1] == a[j - 1] && c[j] == a[j];
      } else {
        assert c[j] == b[j - |a| + 1];
        assert c[j - 1] == b[j - |a|];
      }
    }
    assert c[|c| - 1] == u;
    assert IsPath(c, s, u);
  }

  lemma ReachedStep(s: string, t: string)
    requires Step(s, t)
    ensures Reached(s, t)
  {
    hide Step;
    assert IsPath([s, t], s, t);
  }

  // The replacements, with anything before them.
  lemma {:induction false} ReplaceReached(before: string, s: string, k: nat)
    requires k < |WORDS|
    ensures Reached(before + s, before + ReplaceAll(s, WORDS[k]))
    decreases |s|
  {
    hide Reached, Step;
    var w := WORDS[k];
    if |s| < |w| {
      ReachedNothing(before + s);
    } else if w <= s {
      var rest := s[|w|..];
      CutFirst(before, s, k);
      ReplaceReached(before + "-", rest, k);
      ReachedThen(before + s, before + "-" + rest, before + "-" + ReplaceAll(rest, w));
      assert before + "-" + ReplaceAll(rest, w) == before + (['-'] + ReplaceAll(rest, w));
    } else {
      ReplaceReached(before + [s[0]], s[1..], k);
      assert before + [s[0]] + s[1..] == before + s;
      assert before + [s[0]] + ReplaceAll(s[1..], w) == before + ([s[0]] + ReplaceAll(s[1..], w));
    }
  }

  lemma CutFirst(before: string, s: string, k: nat)
    requires k < |WORDS| && WORDS[k] <= s
    ensures Reached(before + s, before + "-" + s[|WORDS[k]|..])
  {
    var w, i := WORDS[k], |before|;
    var whole := before + s;
    assert whole[i..i + |w|] == s[..|w|] == w;
    assert whole[..i] == before && whole[i + |w|..] == s[|w|..];
    assert CutAt(whole, before + "-" + s[|w|..], k, i);
    ReachedStep(whole, before + "-" + s[|w|..]);
  }

  lemma {:induction false} ReplaceWordsReached(s: string, words: seq<string>)
    requires [] !in words && forall j :: 0 <= j < |words| ==> words[j] in WORDS
    ensures Reached(s, ReplaceWords(s, words))
    decreases |words|
  {
    hide Reached, ReplaceAll;
    if words == [] {
      ReachedNothing(s);
    } else {
      var t := ReplaceAll(s, words[0]);
      var k :| 0 <= k < |WORDS| && WORDS[k] == words[0];
      ReplaceReached("", s, k);
      assert "" + s == s && "" + t == t;
      ReplaceWordsReached(t, words[1..]);
      hide ReplaceWords;
      ReachedThen(s, t, ReplaceWords(t, words[1..]));
    }
  }

  lemma {:induction false} CollapseReached(before: string, s: string)
    ensures Reached(before + s, before + Collapse(s))
    decreases |s|
  {
    hide Reached;
    if |s| < 2 {
      ReachedNothing(before + s);
    } else if s[0] == '-' && s[1] == '-' {
      TidyReached(before + s, |before|);
      assert (before + s)[..|before|] + (before + s)[|before| + 1..] == before + s[1..];
      CollapseReached(before, s[1..]);
      ReachedThen(before + s, before + s[1..], before + Collapse(s[1..]));
    } else {
      CollapseReached(before + [s[0]], s[1..]);
      assert before + [s[0]] + s[1..] == before + s;
      assert before + [s[0]] + Collapse(s[1..]) == before + ([s[0]] + Collapse(s[1..]));
    }
  }

  lemma TidyReached(s: string, i: nat)
    requires i < |s| && s[i] == '-' && (i == 0 || i == |s| - 1 || s[i - 1] == '-' || s[i + 1] == '-')
    ensures Reached(s, s[..i] + s[i + 1..])
  {
    assert TidyAt(s, s[..i] + s[i + 1..], i);
    ReachedStep(s, s[..i] + s[i + 1..]);
  }

  lemma TrimReached(s: string)
    ensures Reached(s, TrimEnds(s))
  {
    hide Reached;
    ReachedNothing(s);
    var t := if s != [] && s[0] == '-' then s[1..] else s;
    if s != [] && s[0] == '-' {
      TidyReached(s, 0);
      assert s[..0] + s[1..] == s[1..];
    }
    assert Reached(s, t);
    if t != [] && t[|t| - 1] == '-' {
      TidyReached(t, |t| - 1);
      assert t[..|t| - 1] + t[|t|..] == t[..|t| - 1];
      ReachedThen(s, t, t[..|t| - 1]);
    }
  }

  lemma PassReached(s: string)
    ensures Reached(s, Pass(s))
  {
    hide Reached, ReplaceWords, Collapse, TrimEnds;
    var r := ReplaceWords(s, WORDS);
    ReplaceWordsReached(s, WORDS);
    CollapseReached("", r);
    assert "" + r == r && "" + Collapse(r) == Collapse(r);
    ReachedThen(s, r, Collapse(r));
    TrimReached(Collapse(r));
    ReachedThen(s, Collapse(r), TrimEnds(Collapse(r)));
  }

  // Main result on what survives: the passes take nothing out of a slug but
  // occurrences of the listed words, and hyphens at an end or side by side.
  lemma {:induction false} OnlyWordsAreCut(s: string, passes: nat)
    ensures Reached(s, Cleaned(s, passes))
    decreases passes
  {
    hide Reached, Pass;
    if passes == 0 || Pass(s) == s {
      ReachedNothing(s);
    } else {
      PassReached(s);
      OnlyWordsAreCut(Pass(s), passes - 1);
      ReachedThen(s, Pass(s), Cleaned(Pass(s), passes - 1));
    }
  }

  // A word in two parts and the hyphen between them lies in one of the parts,
  // or has a hyphen of its own there.
  lemma AcrossHyphen(p: string, q: string, w: string, i: nat)
    requires OccursAt(p + "-" + q, w, i)
    ensures
      || OccursAt(p, w, i)
      || (i > |p| && OccursAt(q, w, i - |p| - 1))
      || (i <= |p| < i + |w| && w[|p| - i] == '-' && p[i..] == w[..|p| - i] && w[|p| - i + 1..] <= q)
  {
    var s := p + "-" + q;
    var n := |p|;
    if i + |w| <= n {
      assert s[i..i + |w|] == p[i..i + |w|];
    } else if i > n {
      assert s[i..i + |w|] == q[i - n - 1..i - n - 1 + |w|];
    } else {
      assert w[n - i] == s[n];
      assert w[..n - i] == s[i..n] == p[i..];
      assert w[n - i + 1..] == s[n + 1..i + |w|] == q[..i + |w| - n - 1];
    }
  }

  // Only "kira-room" can lie across a hyphen.
  lemma WordAcrossHyphen(p: string, q: string, k: nat, i: nat)
    requires k < |WORDS| && OccursAt(p + "-" + q, WORDS[k], i)
    ensures
      || OccursAt(p, WORDS[k], i)
      || (i > |p| && OccursAt(q, WORDS[k], i - |p| - 1))
      || (k == 1 && i <= |p| && p[i..] == "kira" && "room" <= q)
  {
    var w := WORDS[k];
    AcrossHyphen(p, q, w, i);
    if i <= |p| < i + |w| && w[|p| - i] == '-' {
      assert k == 1 && |p| - i == 4;
      assert w[..4] == "kira" && w[5..] == "room";
    }
  }

  lemma NoWordAt(s: string)
    requires !HasWord(s)
    ensures forall k: nat, i: nat :: k < |WORDS| ==> !OccursAt(s, WORDS[k], i)
  {
    forall k: nat, i: nat | k < |WORDS| ensures !OccursAt(s, WORDS[k], i) {
      assert !Occurs(s, WORDS[k]);
    }
  }

  lemma JoinedHasNoWord(p: string, q: string)
    requires !HasWord(p) && !HasWord(q)
    requires !("room" <= q) || |p| < 4
    ensures !HasWord(p + "-" + q)
  {
    NoWordAt(p);
    NoWordAt(q);
    forall k: nat, i: nat | k < |WORDS| ensures !OccursAt(p + "-" + q, WORDS[k], i) {
      if OccursAt(p + "-" + q, WORDS[k], i) { WordAcrossHyphen(p, q, k, i); }
    }
  }

  // No listed word holds another.
  lemma WordsApart(k: nat, l: nat, i: nat)
    requires k < |WORDS| && l < |WORDS| && OccursAt(WORDS[k], WORDS[l], i)
    ensures k == l && i == 0
  {
    var w, v := WORDS[k], WORDS[l];
    assert v[0] == w[i] && v[1] == w[i + 1] && v[4] == w[i + 4];
  }

  lemma WordEnds(k: nat, i: nat)
    requires k < |WORDS| && i <= |WORDS[k]|
    ensures WORDS[k][i..] != "kira" && !("room" <= WORDS[k])
  {
    var w := WORDS[k];
    assert i + 4 == |w| ==> w[i..][0] == w[i];
    assert w[0] != 'r';
  }

  // In a-w-b, when a and b hold none, the only listed word is w in its place.
  lemma OnlyTheWord(a: string, k: nat, b: string, l: nat, i: nat)
    requires k < |WORDS| && l < |WORDS| && !HasWord(a) && !HasWord(b)
    requires OccursAt(a + "-" + (WORDS[k] + "-" + b), WORDS[l], i)
    ensures l == k && i == |a| + 1
  {
    var w, v := WORDS[k], WORDS[l];
    var t := w + "-" + b;
    NoWordAt(a);
    NoWordAt(b);
    assert "room" <= t ==> t[0] == 'r';
    WordAcrossHyphen(a, t, l, i);
    var j := i - |a| - 1;
    assert i > |a| && OccursAt(t, v, j);
    WordAcrossHyphen(w, b, l, j);
    if j <= |w| { WordEnds(k, j); }
    assert OccursAt(w, v, j);
    WordsApart(k, l, j);
  }

  lemma OccursInside(x: string, p: string, y: string, w: string, i: nat)
    ensures OccursAt(p, w, i) ==> OccursAt(x + p + y, w, |x| + i)
  {
    var s, n := x + p + y, |x| + i;
    if OccursAt(p, w, i) {
      assert s[n..n + |w|] == p[i..i + |w|];
    }
  }

  lemma {:induction false} ReplaceFirst(x: string, w: string, y: string)
    requires w != [] && forall i: nat :: i < |x| ==> !OccursAt(x + w + y, w, i)
    ensures ReplaceAll(x + w + y, w) == x + "-" + ReplaceAll(y, w)
  {
    var s := x + w + y;
    if x == [] {
      assert s == w + y && w <= s && s[|w|..] == y;
    } else {
      assert !OccursAt(s, w, 0);
      assert s[1..] == x[1..] + w + y;
      forall i: nat | i < |x[1..]| ensures !OccursAt(x[1..] + w + y, w, i) {
        OccursInside([s[0]], s[1..], "", w, i);
        assert [s[0]] + s[1..] + "" == s;
        assert !OccursAt(s, w, i + 1);
      }
      ReplaceFirst(x[1..], w, y);
      assert x + "-" + ReplaceAll(y, w) == [x[0]] + (x[1..] + "-" + ReplaceAll(y, w));
    }
  }

  lemma {:induction false} CollapseDouble(x: string, y: string)
    ensures Collapse(x + "-" + ("-" + y)) == Collapse(x + "-" + y)
  {
    var s, t := x + "-" + ("-" + y), x + "-" + y;
    if x == [] {
      assert s[1..] == "-" + y == t;
    } else {
      CollapseDouble(x[1..], y);
      assert s[1..] == x[1..] + "-" + ("-" + y) && t[1..] == x[1..] + "-" + y;
      assert s[0] == t[0] && s[1] == t[1];
    }
  }

  // Words that do not occur are not replaced.
  lemma {:induction false} NoneReplaced(s: string, words: seq<string>)
    requires [] !in words && forall k :: 0 <= k < |words| ==> !Occurs(s, words[k])
    ensures ReplaceWords(s, words) == s
    decreases |words|
  {
    if words != [] {
      ReplaceAllShrinks(s, words[0]);
      NoneReplaced(s, words[1..]);
    }
  }

  // Of a list of words, the one that occurs is replaced, if nothing it leaves
  // holds another.
  lemma {:induction false} OneReplaced(s: string, words: seq<string>, k: nat, t: string)
    requires [] !in words && k < |words| && t == ReplaceAll(s, words[k])
    requires forall l :: 0 <= l < k ==> !Occurs(s, words[l])
    requires forall l :: k < l < |words| ==> !Occurs(t, words[l])
    ensures ReplaceWords(s, words) == t
    decreases |words|
  {
    if k == 0 {
      NoneReplaced(t, words[1..]);
    } else {
      ReplaceAllShrinks(s, words[0]);
      OneReplaced(s, words[1..], k - 1, t);
    }
  }

  lemma PartsHaveNoWord(a: string, b: string)
    requires !HasWord(a + "-" + b)
    ensures !HasWord(a) && !HasWord(b)
  {
    var s := a + "-" + b;
    forall k: nat, i: nat | k < |WORDS| ensures !OccursAt(a, WORDS[k], i) && !OccursAt(b, WORDS[k], i) {
      OccursInside("", a, "-" + b, WORDS[k], i);
      OccursInside(a + "-", b, "", WORDS[k], i);
      assert "" + a + ("-" + b) == s && a + "-" + b + "" == s;
      assert !OccursAt(s, WORDS[k], i) && !OccursAt(s, WORDS[k], |a| + 1 + i);
    }
  }

  lemma ThreeHyphens(a: string, k: nat, b: string)
    requires k < |WORDS| && !HasWord(a) && !HasWord(b)
    ensures ReplaceWords(a + "-" + (WORDS[k] + "-" + b), WORDS) == a + "-" + ("-" + ("-" + b))
  {
    var s, t := a + "-" + (WORDS[k] + "-" + b), a + "-" + ("-" + ("-" + b));
    HyphensHoldNoWord(a, b);
    WordReplaced(a, k, b);
    forall l | 0 <= l < |WORDS| && l != k ensures !Occurs(s, WORDS[l]) {
      NoOtherWord(a, k, b, l);
    }
    assert forall l :: 0 <= l < |WORDS| ==> !Occurs(t, WORDS[l]);
    hide Occurs, ReplaceAll, HasWord;
    OneReplaced(s, WORDS, k, t);
  }

  lemma NoOtherWord(a: string, k: nat, b: string, l: nat)
    requires k < |WORDS| && l < |WORDS| && l != k && !HasWord(a) && !HasWord(b)
    ensures !Occurs(a + "-" + (WORDS[k] + "-" + b), WORDS[l])
  {
    var s := a + "-" + (WORDS[k] + "-" + b);
    hide HasWord, OccursAt;
    if Occurs(s, WORDS[l]) {
      var i: nat :| OccursAt(s, WORDS[l], i);
      OnlyTheWord(a, k, b, l, i);
    }
  }

  lemma HyphensHoldNoWord(a: string, b: string)
    requires !HasWord(a) && !HasWord(b)
    ensures !HasWord("-" + b) && !HasWord(a + "-" + ("-" + ("-" + b)))
  {
    hide HasWord;
    ShortHasNoWord("");
    JoinedHasNoWord("", b);
    assert "" + "-" + b == "-" + b;
    JoinedHasNoWord("", "-" + b);
    var rest := "-" + ("-" + b);
    assert "" + "-" + ("-" + b) == rest;
    assert rest[0] == '-' && "room"[0] == 'r';
    JoinedHasNoWord(a, rest);
  }

  lemma NotBefore(a: string, k: nat, b: string)
    requires k < |WORDS| && !HasWord(a) && !HasWord(b)
    ensures forall i: nat :: i < |a + "-"| ==> !OccursAt((a + "-") + WORDS[k] + ("-" + b), WORDS[k], i)
  {
    var s := (a + "-") + WORDS[k] + ("-" + b);
    assert s == a + "-" + (WORDS[k] + "-" + b);
    hide HasWord, OccursAt;
    forall i: nat | i < |a + "-"| ensures !OccursAt(s, WORDS[k], i) {
      if OccursAt(s, WORDS[k], i) { OnlyTheWord(a, k, b, k, i); }
    }
  }

  lemma WordReplaced(a: string, k: nat, b: string)
    requires k < |WORDS| && !HasWord(a) && !HasWord(b) && !HasWord("-" + b)
    ensures ReplaceAll(a + "-" + (WORDS[k] + "-" + b), WORDS[k]) == a + "-" + ("-" + ("-" + b))
  {
    hide *;
    var w := WORDS[k];
    NotBefore(a, k, b);
    WordsNotEmpty(k);
    ReplaceFirst(a + "-", w, "-" + b);
    Untouched("-" + b, k);
    assert (a + "-") + w + ("-" + b) == a + "-" + (w + "-" + b);
    assert (a + "-") + "-" + ("-" + b) == a + "-" + ("-" + ("-" + b));
  }

  lemma WordsNotEmpty(k: nat)
    requires k < |WORDS|
    ensures WORDS[k] != []
  {
  }

  lemma Untouched(s: string, k: nat)
    requires k < |WORDS| && !HasWord(s)
    ensures WORDS[k] != [] && ReplaceAll(s, WORDS[k]) == s
  {
    assert !Occurs(s, WORDS[k]);
    hide HasWord;
    ReplaceAllShrinks(s, WORDS[k]);
  }

  lemma JoinedWellFormed(a: string, b: string)
    requires WellFormed(a) && WellFormed(b) && a != [] && b != []
    ensures WellFormed(a + "-" + b)
  {
    var s := a + "-" + b;
    forall i | 0 < i < |s| ensures s[i - 1] != '-' || s[i] != '-' {
      if i < |a| { assert s[i - 1] == a[i - 1] && s[i] == a[i]; }
      if i > |a| + 1 { assert s[i - 1] == b[i - |a| - 2] && s[i] == b[i - |a| - 1]; }
    }
  }

  // A listed word between two parts of a name is taken out, and the parts are
  // joined as they are.
  lemma WordBetween(a: string, k: nat, b: string, passes: nat)
    requires WellFormed(a) && WellFormed(b) && a != [] && b != [] && k < |WORDS| && passes >= 1
    requires !HasWord(a + "-" + b)
    ensures Cleaned(a + "-" + (WORDS[k] + "-" + b), passes) == a + "-" + b
  {
    hide ReplaceWords, HasWord, WellFormed, Collapse, TrimEnds;
    var s, r := a + "-" + (WORDS[k] + "-" + b), a + "-" + b;
    PartsHaveNoWord(a, b);
    ThreeHyphens(a, k, b);
    CollapseDouble(a, "-" + b);
    CollapseDouble(a, b);
    JoinedWellFormed(a, b);
    AlreadyTidy(r);
    assert Pass(s) == r;
    PassShrinks(r);
    assert Cleaned(r, passes - 1) == r;
    assert |s| > |r|;
  }

  lemma AlreadyTidy(s: string)
    requires WellFormed(s)
    ensures Collapse(s) == s && TrimEnds(s) == s
  {
    CollapseSpaced(s);
    TrimEndsWellFormed(s);
  }

  // For every salon name: the ten passes leave a well-formed address without
  // any of the four words, because the slug has at most 63 characters.
  lemma AddressHasNoPlatformWord(name: string, fold: char -> string)
    ensures var address := Cleaned(SlugifySalonName(name, fold), PASSES);
      && WellFormed(address) && |address| <= 63
      && !Occurs(address, "kiraroom") && !Occurs(address, "kira-room")
      && !Occurs(address, "soporte") && !Occurs(address, "support")
      && !HasWord(address)
  {
    SlugWellFormed(name, fold);
    PassesSuffice(SlugifySalonName(name, fold), PASSES);
    var address := Cleaned(SlugifySalonName(name, fold), PASSES);
    hide Occurs, Cleaned, SlugifySalonName, WellFormed;
    assert !Occurs(address, WORDS[0]) && !Occurs(address, WORDS[1]);
    assert !Occurs(address, WORDS[2]) && !Occurs(address, WORDS[3]);
  }

  function SuggestedWebAddress(salonName: string, fold: char -> string): (r: string) {
    if Trim(salonName) == [] then []
    else
      var address := Cleaned(SlugifySalonName(salonName, fold), PASSES);
      if address == [] then "salon" else address
  }

  // The form starts from a usable address for every name with something in it.
  lemma SuggestionUsable(salonName: string, fold: char -> string)
    ensures SuggestedWebAddress(salonName, fold) == [] <==> Trim(salonName) == []
    ensures WellFormed(SuggestedWebAddress(salonName, fold)) && !HasWord(SuggestedWebAddress(salonName, fold))
  {
    hide Cleaned, SlugifySalonName, Trim, HasWord;
    AddressHasNoPlatformWord(salonName, fold);
    ShortHasNoWord("");
    ShortHasNoWord("salon");
  }
}
