// Strings as JavaScript sees them: \s, trim and trimEnd.
module Text {
  // The characters of \s and of trim(): white space and line terminators
  // (ECMA-262, section 22.2.2.9).
  predicate IsSpace(c: char) {
    || c == '\t' || c == '\n' || c == '\U{0B}' || c == '\U{0C}' || c == '\r' || c == ' '
    || c == '\U{A0}' || c == '\U{1680}' || '\U{2000}' <= c <= '\U{200A}'
    || c == '\U{2028}' || c == '\U{2029}' || c == '\U{202F}' || c == '\U{205F}' || c == '\U{3000}' || c == '\U{FEFF}'
  }

  // What "." in a pattern does not match.
  predicate IsLineEnd(c: char) {
    c == '\n' || c == '\r' || c == '\U{2028}' || c == '\U{2029}'
  }

  function TrimStart(s: string): (r: string)
    ensures |r| <= |s| && s[|s| - |r|..] == r
    ensures r != [] ==> !IsSpace(r[0])
    ensures forall i :: 0 <= i < |s| - |r| ==> IsSpace(s[i])
  {
    if s != [] && IsSpace(s[0]) then TrimStart(s[1..]) else s
  }

  function TrimEnd(s: string): (r: string)
    ensures r <= s
    ensures r != [] ==> !IsSpace(r[|r| - 1])
    ensures forall i :: |r| <= i < |s| ==> IsSpace(s[i])
  {
    if s != [] && IsSpace(s[|s| - 1]) then TrimEnd(s[..|s| - 1]) else s
  }

  function Trim(s: string): (r: string) { TrimEnd(TrimStart(s)) }

  lemma TrimKeeps(s: string)
    requires s != [] && !IsSpace(s[0]) && !IsSpace(s[|s| - 1])
    ensures Trim(s) == s
  {
  }

  ghost predicate AllSpace(s: string) { forall i :: 0 <= i < |s| ==> IsSpace(s[i]) }

  // White space around a text is what trimming takes off.
  lemma {:induction false} TrimStartPast(before: string, s: string)
    requires AllSpace(before) && (s != [] ==> !IsSpace(s[0]))
    ensures TrimStart(before + s) == s
  {
    if before == [] {
      assert before + s == s;
    } else {
      assert (before + s)[1..] == before[1..] + s;
      TrimStartPast(before[1..], s);
    }
  }

  lemma {:induction false} TrimEndPast(s: string, after: string)
    requires AllSpace(after) && (s != [] ==> !IsSpace(s[|s| - 1]))
    ensures TrimEnd(s + after) == s
  {
    if after == [] {
      assert s + after == s;
    } else {
      var n := |after| - 1;
      assert (s + after)[..|s| + n] == s + after[..n];
      TrimEndPast(s, after[..n]);
    }
  }

  lemma TrimPast(before: string, s: string, after: string)
    requires AllSpace(before) && AllSpace(after) && s != [] && !IsSpace(s[0]) && !IsSpace(s[|s| - 1])
    ensures Trim(before + s + after) == s
  {
    hide TrimStart, TrimEnd, IsSpace;
    assert before + s + after == before + (s + after) && (s + after)[0] == s[0];
    TrimStartPast(before, s + after);
    TrimEndPast(s, after);
  }

  lemma {:induction false} TrimStartOfSpace(s: string)
    ensures TrimStart(s) == [] <==> AllSpace(s)
  {
    if s != [] && IsSpace(s[0]) {
      TrimStartOfSpace(s[1..]);
      assert s == [s[0]] + s[1..];
    }
  }

  lemma {:induction false} TrimEndOfSpace(s: string)
    ensures TrimEnd(s) == [] <==> AllSpace(s)
    ensures AllSpace(TrimEnd(s)) <==> AllSpace(s)
  {
    var n := |s| - 1;
    if s != [] && IsSpace(s[n]) {
      TrimEndOfSpace(s[..n]);
      assert s == s[..n] + [s[n]];
    }
  }

  lemma TrimOfSpace(s: string)
    ensures Trim(s) == [] <==> AllSpace(s)
  {
    hide TrimEnd;
    TrimStartOfSpace(s);
    TrimEndOfSpace(TrimStart(s));
    var t := TrimStart(s);
    assert t != [] ==> !IsSpace(t[0]);
    hide IsSpace, TrimStart;
  }

  predicate IsDigit(c: char) { '0' <= c <= '9' }

  predicate AllDigits(s: string) {
    forall i :: 0 <= i < |s| ==> IsDigit(s[i])
  }

  // How many digits s begins with.
  function DigitRun(s: string): (n: nat)
    ensures n <= |s| && AllDigits(s[..n]) && (n < |s| ==> !IsDigit(s[n]))
  {
    if s != [] && IsDigit(s[0]) then 1 + DigitRun(s[1..]) else 0
  }

  lemma {:induction false} DigitRunAll(d: string, rest: string)
    requires AllDigits(d) && (rest != [] ==> !IsDigit(rest[0]))
    ensures DigitRun(d + rest) == |d|
  {
    if d == [] {
      assert d + rest == rest;
    } else {
      assert (d + rest)[1..] == d[1..] + rest;
      DigitRunAll(d[1..], rest);
    }
  }

  function DigitOf(c: char): (d: nat)
    requires IsDigit(c)
    ensures d < 10
  {
    c as int - '0' as int
  }

  // The number a run of decimal digits writes: Number(s).
  function DecimalValue(s: string): (r: nat)
    requires AllDigits(s)
  {
    if |s| == 0 then 0 else 10 * DecimalValue(s[..|s| - 1]) + DigitOf(s[|s| - 1])
  }

  function Digit(d: nat): (c: char)
    requires d < 10
    ensures IsDigit(c) && DigitOf(c) == d
  {
    ('0' as int + d) as char
  }

  // String(n) for a whole number.
  function Digits(n: nat): (s: string)
    ensures AllDigits(s) && |s| >= 1 && DecimalValue(s) == n
  {
    if n < 10 then [Digit(n)]
    else
      var s := Digits(n / 10) + [Digit(n % 10)];
      assert s[..|s| - 1] == Digits(n / 10);
      s
  }

  // The last `width` digits of n, which are all of it when it is smaller than
  // 10 to that power.
  function Padded(n: nat, width: nat): (s: string)
    ensures AllDigits(s)
    decreases width
  {
    if width == 0 then [] else Padded(n / 10, width - 1) + [Digit(n % 10)]
  }

  function Power10(width: nat): (r: nat) { if width == 0 then 1 else 10 * Power10(width - 1) }

  lemma {:induction false} PaddedValue(n: nat, width: nat)
    requires n < Power10(width)
    ensures |Padded(n, width)| == width && DecimalValue(Padded(n, width)) == n
  {
    if width > 0 {
      PaddedValue(n / 10, width - 1);
      var s := Padded(n, width);
      assert s[..width - 1] == Padded(n / 10, width - 1);
    }
  }

  // -------------------------------------------------------- split and join

  predicate OccursAt(s: string, w: string, i: nat) {
    i + |w| <= |s| && s[i..i + |w|] == w
  }

  ghost predicate Occurs(s: string, w: string) {
    exists i: nat :: OccursAt(s, w, i)
  }

  // A text cut at every occurrence of w from the left.
  function Split(s: string, w: string): (parts: seq<string>)
    requires w != []
    ensures parts != []
  {
    if |s| < |w| then [s]
    else if w <= s then [[]] + Split(s[|w|..], w)
    else
      var rest := Split(s[1..], w);
      [[s[0]] + rest[0]] + rest[1..]
  }

  function Join(parts: seq<string>, separator: string): (r: string)
    requires parts != []
  {
    if |parts| == 1 then parts[0] else parts[0] + separator + Join(parts[1..], separator)
  }

  lemma JoinFront(c: char, parts: seq<string>, separator: string)
    requires parts != []
    ensures Join([[c] + parts[0]] + parts[1..], separator) == [c] + Join(parts, separator)
    ensures Join([[]] + parts, separator) == separator + Join(parts, separator)
  {
    assert ([[c] + parts[0]] + parts[1..])[1..] == parts[1..];
    assert ([[]] + parts)[1..] == parts;
    assert [] + separator == separator;
  }

  // A text between two-character words of different characters is found again.
  lemma {:induction false} SplitFirst(part: string, w: string, rest: string)
    requires |w| == 2 && w[0] != w[1] && !Occurs(part, w)
    ensures Split(part + w + rest, w) == [part] + Split(rest, w)
    ensures Split(part, w) == [part]
  {
    var s := part + w + rest;
    if part == [] {
      assert w <= s && s[2..] == rest;
    } else {
      assert s[1..] == part[1..] + w + rest && part == [part[0]] + part[1..];
      NotAtFront(part, w, rest);
      TailHasNoWord(part, w);
      SplitFirst(part[1..], w, rest);
    }
  }

  lemma NotAtFront(part: string, w: string, rest: string)
    requires part != [] && |w| == 2 && w[0] != w[1] && !Occurs(part, w)
    ensures !(w <= part + w + rest) && !(w <= part)
  {
    var s := part + w + rest;
    assert !OccursAt(part, w, 0);
    assert |part| == 1 ==> s[1] == w[0];
    assert |part| > 1 ==> s[..2] == part[..2];
  }

  lemma TailHasNoWord(s: string, w: string)
    requires s != [] && !Occurs(s, w)
    ensures !Occurs(s[1..], w)
  {
    forall i: nat ensures !OccursAt(s[1..], w, i) {
      assert i + |w| <= |s[1..]| ==> s[1..][i..i + |w|] == s[i + 1..i + 1 + |w|];
      assert !OccursAt(s, w, i + 1);
    }
  }

  // Parts without the word come out of split as they went into join.
  lemma {:induction false} SplitJoin(parts: seq<string>, w: string)
    requires parts != [] && |w| == 2 && w[0] != w[1]
    requires forall k :: 0 <= k < |parts| ==> !Occurs(parts[k], w)
    ensures Split(Join(parts, w), w) == parts
  {
    hide Occurs, Split;
    if |parts| == 1 {
      SplitFirst(parts[0], w, []);
    } else {
      SplitJoin(parts[1..], w);
      SplitFirst(parts[0], w, Join(parts[1..], w));
      assert parts == [parts[0]] + parts[1..];
    }
  }

  // No part holds the word that was split at.
  lemma {:induction false} PartHasNoWord(s: string, w: string, k: nat)
    requires w != [] && k < |Split(s, w)|
    ensures !Occurs(Split(s, w)[k], w)
  {
    if |s| < |w| {
    } else if w <= s {
      if k > 0 { PartHasNoWord(s[|w|..], w, k - 1); }
    } else {
      var rest := Split(s[1..], w);
      PartHasNoWord(s[1..], w, k);
      if k == 0 {
        FirstPartLeads(s[1..], w);
        OccursBehind(s[0], rest[0], w);
        StillLeads([s[0]] + rest[0], s, w);
      }
    }
  }

  lemma OccursBehind(c: char, t: string, w: string)
    ensures Occurs([c] + t, w) ==> w <= [c] + t || Occurs(t, w)
  {
    if Occurs([c] + t, w) && !(w <= [c] + t) {
      var i: nat :| OccursAt([c] + t, w, i);
      assert t[i - 1..i - 1 + |w|] == ([c] + t)[i..i + |w|];
      assert OccursAt(t, w, i - 1);
    }
  }

  lemma StillLeads(part: string, s: string, w: string)
    requires part <= s
    ensures w <= part ==> w <= s
  {
  }

  lemma {:induction false} FirstPartLeads(s: string, w: string)
    requires w != []
    ensures Split(s, w)[0] <= s
  {
    if |s| >= |w| && !(w <= s) { FirstPartLeads(s[1..], w); }
  }

  // split loses nothing: putting the word back between the parts gives s.
  lemma {:induction false} JoinSplit(s: string, w: string)
    requires w != []
    ensures Join(Split(s, w), w) == s
  {
    if |s| < |w| {
    } else if w <= s {
      JoinSplit(s[|w|..], w);
      hide Join;
      JoinFront(s[0], Split(s[|w|..], w), w);
      assert s == w + s[|w|..];
    } else {
      JoinSplit(s[1..], w);
      hide Join;
      JoinFront(s[0], Split(s[1..], w), w);
      assert s == [s[0]] + s[1..];
    }
  }

  // No part holds the word.
  lemma {:induction false} PartsHoldNoWord(s: string, w: string)
    requires w != []
    ensures Split(s, w)[0] <= s
    ensures forall k :: 0 <= k < |Split(s, w)| ==> !Occurs(Split(s, w)[k], w)
  {
    if |s| < |w| {
    } else if w <= s {
      PartsHoldNoWord(s[|w|..], w);
    } else {
      PartsHoldNoWord(s[1..], w);
      NoWordAtFront(s, Split(s[1..], w)[0], w);
    }
  }

  lemma NoWordAtFront(s: string, part: string, w: string)
    requires s != [] && !(w <= s) && part <= s[1..] && !Occurs(part, w)
    ensures [s[0]] + part <= s && !Occurs([s[0]] + part, w)
  {
    var longer := [s[0]] + part;
    assert longer <= s;
    forall i: nat ensures !OccursAt(longer, w, i) {
      assert i > 0 && i + |w| <= |longer| ==> longer[i..i + |w|] == part[i - 1..i - 1 + |w|];
      assert i > 0 ==> !OccursAt(part, w, i - 1);
      assert i == 0 && |w| <= |longer| ==> longer[..|w|] == s[..|w|];
    }
  }
}
