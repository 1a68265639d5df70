// Bold text in the virtual receptionist's replies (chat-markdown.ts,
// parseInline): **bold** first, then *bold* hugging its text.
module ChatInline {
  import opened Common
  import opened Text

  datatype Inline = Inline(text: string, bold: bool)

  // A match of the pattern: `width` asterisks around `inner`, ending at `end`.
  datatype Match = Match(width: nat, inner: string, end: nat)

  // Where the lazy .+? of \*\*(.+?)\*\* stops, tried from j on.
  function FindDouble(s: string, j: nat): (r: Option<nat>)
    ensures r.Some? ==> j <= r.value && r.value + 2 <= |s| && s[r.value] == '*' && s[r.value + 1] == '*'
    decreases |s| - j
  {
    if j + 1 >= |s| then None
    else if s[j] == '*' && s[j + 1] == '*' then Some(j)
    else if IsLineEnd(s[j]) then None
    else FindDouble(s, j + 1)
  }

  // Where the lazy .*?\S of \*(\S(?:.*?\S)?)\* stops, tried from k on.
  function FindSingle(s: string, k: nat): (r: Option<nat>)
    ensures r.Some? ==> k <= r.value && r.value + 2 <= |s| && s[r.value + 1] == '*'
    decreases |s| - k
  {
    if k + 1 >= |s| then None
    else if !IsSpace(s[k]) && s[k + 1] == '*' then Some(k)
    else if IsLineEnd(s[k]) then None
    else FindSingle(s, k + 1)
  }

  function DoubleAt(s: string, i: nat): (r: Option<Match>) {
    if i + 2 < |s| && s[i] == '*' && s[i + 1] == '*' && !IsLineEnd(s[i + 2]) then
      match FindDouble(s, i + 3)
      case Some(j) => Some(Match(2, s[i + 2..j], j + 2))
      case None => None
    else None
  }

  // The optional group is tried before the single character.
  function SingleAt(s: string, i: nat): (r: Option<Match>) {
    if i + 2 < |s| && s[i] == '*' && !IsSpace(s[i + 1]) then
      match FindSingle(s, i + 2)
      case Some(k) => Some(Match(1, s[i + 1..k + 1], k + 2))
      case None => if s[i + 2] == '*' then Some(Match(1, s[i + 1..i + 2], i + 3)) else None
    else None
  }

  function MatchAt(s: string, i: nat): (r: Option<Match>) {
    if DoubleAt(s, i).Some? then DoubleAt(s, i) else SingleAt(s, i)
  }

  function Stars(width: nat): (r: string) { seq(width, _ => '*') }

  // A match is its asterisks around its text, and its text is not empty.
  lemma MatchText(s: string, i: nat)
    requires MatchAt(s, i).Some?
    ensures var m := MatchAt(s, i).value;
      && i < m.end <= |s| && 1 <= m.width <= 2 && m.inner != []
      && s[i..m.end] == Stars(m.width) + m.inner + Stars(m.width)
  {
    hide DoubleAt, SingleAt, Stars;
    if DoubleAt(s, i).Some? {
      DoubleText(s, i);
    } else {
      SingleText(s, i);
    }
  }

  lemma DoubleText(s: string, i: nat)
    requires DoubleAt(s, i).Some?
    ensures var m := DoubleAt(s, i).value;
      && i < m.end <= |s| && m.width == 2 && m.inner != [] && s[i..m.end] == Stars(2) + m.inner + Stars(2)
  {
    hide FindDouble, IsLineEnd;
    var e := DoubleAt(s, i).value.end;
    assert Stars(2) == "**" && s[i..i + 2] == "**" && s[e - 2..e] == "**";
    assert s[i..e] == s[i..i + 2] + s[i + 2..e - 2] + s[e - 2..e];
  }

  lemma SingleText(s: string, i: nat)
    requires SingleAt(s, i).Some?
    ensures var m := SingleAt(s, i).value;
      && i < m.end <= |s| && m.width == 1 && m.inner != [] && s[i..m.end] == Stars(1) + m.inner + Stars(1)
  {
    hide FindSingle, IsSpace;
    var e := SingleAt(s, i).value.end;
    assert Stars(1) == "*" && s[i..i + 1] == "*" && s[e - 1..e] == "*";
    assert s[i..e] == s[i..i + 1] + s[i + 1..e - 1] + s[e - 1..e];
  }

  // The leftmost match from i on, and where it is.
  function NextMatch(s: string, i: nat): (r: Option<nat>)
    ensures r.Some? ==> i <= r.value < |s| && MatchAt(s, r.value).Some?
    ensures forall p :: i <= p < (if r.Some? then r.value else |s|) ==> MatchAt(s, p).None?
    decreases |s| - i
  {
    if i >= |s| then None else if MatchAt(s, i).Some? then Some(i) else NextMatch(s, i + 1)
  }

  // A stretch of the reply: as written (width 0), or matched.
  datatype Piece = Piece(width: nat, text: string)

  function Written(p: Piece): (r: string) { Stars(p.width) + p.text + Stars(p.width) }

  function Shown(p: Piece): (r: Inline) { Inline(p.text, p.width > 0) }

  // The pieces from `last` on.
  function Pieces(s: string, last: nat): (r: seq<Piece>)
    requires last <= |s|
    decreases |s| - last
  {
    match NextMatch(s, last)
    case None => if last < |s| then [Piece(0, s[last..])] else []
    case Some(at) =>
      MatchText(s, at);
      var m := MatchAt(s, at).value;
      Turn(s, last, at) + Pieces(s, m.end)
  }

  function ShownAll(ps: seq<Piece>): (r: seq<Inline>)
    ensures |r| == |ps| && forall k :: 0 <= k < |r| ==> r[k] == Shown(ps[k])
  {
    if ps == [] then [] else [Shown(ps[0])] + ShownAll(ps[1..])
  }

  function WrittenAll(ps: seq<Piece>): (r: string) {
    if ps == [] then [] else Written(ps[0]) + WrittenAll(ps[1..])
  }

  function Inlines(s: string): (r: seq<Inline>) { ShownAll(Pieces(s, 0)) }

  lemma {:induction false} ShownAllAppend(a: seq<Piece>, b: seq<Piece>)
    ensures ShownAll(a + b) == ShownAll(a) + ShownAll(b)
  {
    if a == [] {
      assert a + b == b;
    } else {
      assert (a + b)[1..] == a[1..] + b;
      ShownAllAppend(a[1..], b);
    }
  }

  // What one turn of the loop adds.
  function Turn(s: string, last: nat, at: nat): (r: seq<Piece>)
    requires last <= at < |s| && MatchAt(s, at).Some?
  {
    var m := MatchAt(s, at).value;
    (if at > last then [Piece(0, s[last..at])] else []) + [Piece(m.width, m.inner)]
  }

  // parseInline
  method ParseInline(text: string) returns (out: seq<Inline>)
    ensures out == Inlines(text)
  {
    hide *;
    out := [];
    var last := 0;
    InlinesFrom(text);
    while true
      invariant 0 <= last <= |text|
      invariant Inlines(text) == out + ShownAll(Pieces(text, last))
      decreases |text| - last
    {
      var next := NextMatch(text, last);
      ShownStep(text, last);
      if next.None? { break; }
      var at := next.value;
      MatchText(text, at);
      var m := MatchAt(text, at).value;
      ghost var before := out;
      if at > last {
        out := out + [Inline(text[last..at], false)];
      }
      out := out + [Inline(m.inner, true)];
      TurnAdded(before, out, text, last, at, m, ShownAll(Pieces(text, m.end)));
      last := m.end;
    }
    if last < |text| {
      out := out + [Inline(text[last..], false)];
    }
  }

  lemma InlinesFrom(s: string)
    ensures Inlines(s) == ShownAll(Pieces(s, 0))
  {
  }

  ghost function TurnShown(s: string, last: nat, at: nat, m: Match): (r: seq<Inline>)
    requires last <= at <= |s|
    ensures r == (if at > last then [Inline(s[last..at], false)] else []) + [Inline(m.inner, true)]
  {
    (if at > last then [Inline(s[last..at], false)] else []) + [Inline(m.inner, true)]
  }

  lemma TurnAdded(
    before: seq<Inline>, after: seq<Inline>, s: string, last: nat, at: nat, m: Match, rest: seq<Inline>)
    requires last <= at <= |s|
    requires after == (if at > last then before + [Inline(s[last..at], false)] else before) + [Inline(m.inner, true)]
    ensures before + (TurnShown(s, last, at, m) + rest) == after + rest
  {
    assert after == before + TurnShown(s, last, at, m);
  }

  lemma ShownStep(s: string, last: nat)
    requires last <= |s|
    ensures match NextMatch(s, last)
      case None => ShownAll(Pieces(s, last)) == if last < |s| then [Inline(s[last..], false)] else []
      case Some(at) =>
        && MatchAt(s, at).value.end <= |s|
        && ShownAll(Pieces(s, last))
           == TurnShown(s, last, at, MatchAt(s, at).value) + ShownAll(Pieces(s, MatchAt(s, at).value.end))
  {
    match NextMatch(s, last) {
      case None =>
      case Some(at) =>
        MatchText(s, at);
        hide MatchAt;
        ShownAllAppend(Turn(s, last, at), Pieces(s, MatchAt(s, at).value.end));
    }
  }

  // ------------------------------------------------------------- what it says

  lemma {:induction false} WrittenAllAppend(a: seq<Piece>, b: seq<Piece>)
    ensures WrittenAll(a + b) == WrittenAll(a) + WrittenAll(b)
  {
    if a == [] {
      assert a + b == b;
    } else {
      assert (a + b)[1..] == a[1..] + b;
      WrittenAllAppend(a[1..], b);
    }
  }

  lemma WrittenTurn(s: string, last: nat, at: nat)
    requires last <= at < |s| && MatchAt(s, at).Some?
    ensures WrittenAll(Turn(s, last, at)) == s[last..MatchAt(s, at).value.end]
  {
    MatchText(s, at);
    hide MatchAt;
    var m := MatchAt(s, at).value;
    var bold := Piece(m.width, m.inner);
    assert WrittenAll([bold]) == s[at..m.end] by { assert [bold][1..] == []; }
    if at > last {
      assert Turn(s, last, at)[1..] == [bold];
      assert Written(Piece(0, s[last..at])) == s[last..at];
      assert s[last..m.end] == s[last..at] + s[at..m.end];
    }
  }

  lemma PlainWritten(text: string)
    ensures WrittenAll([Piece(0, text)]) == text && WrittenAll([]) == []
  {
    assert [Piece(0, text)][1..] == [] && Written(Piece(0, text)) == text;
  }

  lemma {:induction false} Reassemble(s: string, last: nat)
    requires last <= |s|
    ensures WrittenAll(Pieces(s, last)) == s[last..]
    decreases |s| - last
  {
    hide MatchAt, WrittenAll, Turn;
    PlainWritten(s[last..]);
    match NextMatch(s, last) {
      case None =>
      case Some(at) =>
        MatchText(s, at);
        var end := MatchAt(s, at).value.end;
        Reassemble(s, end);
        WrittenTurn(s, last, at);
        WrittenAllAppend(Turn(s, last, at), Pieces(s, end));
        assert s[last..] == s[last..end] + s[end..];
    }
  }

  // Read from position i on, each bold piece is what the pattern matches
  // there, and no match begins anywhere in a plain one.
  ghost predicate Matched(s: string, i: nat, ps: seq<Piece>)
    decreases |ps|
  {
    ps == [] || (PieceAt(s, i, ps[0]) && Matched(s, i + |Written(ps[0])|, ps[1..]))
  }

  ghost predicate PieceAt(s: string, i: nat, p: Piece) {
    if p.width > 0 then MatchAt(s, i) == Some(Match(p.width, p.text, i + |Written(p)|))
    else forall q :: i <= q < i + |p.text| ==> MatchAt(s, q).None?
  }

  lemma {:induction false} PiecesMatched(s: string, last: nat)
    requires last <= |s|
    ensures Matched(s, last, Pieces(s, last))
    decreases |s| - last
  {
    hide MatchAt;
    match NextMatch(s, last) {
      case None =>
      case Some(at) =>
        MatchText(s, at);
        var m := MatchAt(s, at).value;
        var rest := Pieces(s, m.end);
        PiecesMatched(s, m.end);
        var bold := Piece(m.width, m.inner);
        assert |Written(bold)| == |s[at..m.end]|;
        var fromBold := [bold] + rest;
        assert fromBold[1..] == rest;
        assert Matched(s, at, fromBold);
        if at > last {
          var plain := Piece(0, s[last..at]);
          assert Pieces(s, last) == [plain] + fromBold;
          assert ([plain] + fromBold)[1..] == fromBold;
        }
    }
  }

  // Nothing of the reply is lost or invented: with one or two asterisks put
  // back around each bold piece, the pieces are the text. The bold ones are
  // what the pattern matches, from the left, and nothing else is.
  lemma InlinesReassemble(s: string)
    ensures exists ps: seq<Piece> ::
      && |ps| == |Inlines(s)| && (forall k :: 0 <= k < |ps| ==> Inlines(s)[k] == Inline(ps[k].text, ps[k].width > 0))
      && (forall k :: 0 <= k < |ps| ==> 0 <= ps[k].width <= 2)
      && WrittenAll(ps) == s && Matched(s, 0, ps)
  {
    Reassemble(s, 0);
    PiecesWellFormed(s, 0);
    PiecesMatched(s, 0);
    assert s[0..] == s;
    assert ShownAll(Pieces(s, 0)) == Inlines(s);
  }

  // No piece is empty, and plain text is never cut in two.
  lemma {:induction false} PiecesWellFormed(s: string, last: nat)
    requires last <= |s|
    ensures forall k :: 0 <= k < |Pieces(s, last)| ==> Pieces(s, last)[k].text != [] && Pieces(s, last)[k].width <= 2
    ensures forall k :: 0 < k < |Pieces(s, last)| ==> Pieces(s, last)[k - 1].width > 0 || Pieces(s, last)[k].width > 0
    decreases |s| - last
  {
    match NextMatch(s, last) {
      case None =>
      case Some(at) =>
        MatchText(s, at);
        PiecesWellFormed(s, MatchAt(s, at).value.end);
    }
  }

  // ------------------------------------------- the pattern, read declaratively

  ghost predicate NoLineEnd(s: string, from: nat, to: nat)
    requires to <= |s|
  {
    forall p :: from <= p < to ==> !IsLineEnd(s[p])
  }

  // e ends some match of \*\*(.+)\*\* begun at i.
  ghost predicate IsDouble(s: string, i: nat, e: nat) {
    && i + 5 <= e <= |s| && s[i] == '*' && s[i + 1] == '*' && s[e - 2] == '*' && s[e - 1] == '*'
    && NoLineEnd(s, i + 2, e - 2)
  }

  // e ends some match of \*(\S.*\S)\* begun at i.
  ghost predicate IsSingle(s: string, i: nat, e: nat) {
    && i + 4 <= e <= |s| && s[i] == '*' && !IsSpace(s[i + 1]) && !IsSpace(s[e - 2]) && s[e - 1] == '*'
    && NoLineEnd(s, i + 1, e - 1)
  }

  // e ends the match of \*\S\* begun at i.
  ghost predicate IsShort(s: string, i: nat, e: nat) {
    e == i + 3 <= |s| && s[i] == '*' && !IsSpace(s[i + 1]) && s[i + 2] == '*'
  }

  lemma {:induction false} FindDoubleLeast(s: string, j: nat)
    ensures var r := FindDouble(s, j);
      && (r.Some? ==> s[r.value] == '*' && s[r.value + 1] == '*' && NoLineEnd(s, j, r.value))
      && forall q :: j <= q && q + 2 <= |s| && s[q] == '*' && s[q + 1] == '*' && NoLineEnd(s, j, q) ==> r.Some? && r.value <= q
    decreases |s| - j
  {
    if j + 1 < |s| && !(s[j] == '*' && s[j + 1] == '*') && !IsLineEnd(s[j]) {
      FindDoubleLeast(s, j + 1);
    }
  }

  lemma {:induction false} FindSingleLeast(s: string, k: nat)
    ensures var r := FindSingle(s, k);
      && (r.Some? ==> !IsSpace(s[r.value]) && s[r.value + 1] == '*' && NoLineEnd(s, k, r.value))
      && forall q :: k <= q && q + 2 <= |s| && !IsSpace(s[q]) && s[q + 1] == '*' && NoLineEnd(s, k, q) ==> r.Some? && r.value <= q
    decreases |s| - k
  {
    if k + 1 < |s| && !(!IsSpace(s[k]) && s[k + 1] == '*') && !IsLineEnd(s[k]) {
      FindSingleLeast(s, k + 1);
    }
  }

  // MatchAt is the pattern: the first alternative if it matches at all, ended
  // as early as possible; else the second, with the longer form preferred and
  // ended as early as possible.
  lemma DoubleAtMeaning(s: string, i: nat)
    ensures DoubleAt(s, i).Some? <==> exists e: nat :: IsDouble(s, i, e)
    ensures DoubleAt(s, i).Some? ==> var e := DoubleAt(s, i).value.end;
      IsDouble(s, i, e) && forall f: nat :: IsDouble(s, i, f) ==> e <= f
  {
    FindDoubleLeast(s, i + 3);
    if DoubleAt(s, i).Some? {
      assert IsDouble(s, i, DoubleAt(s, i).value.end);
    }
    forall f: nat | IsDouble(s, i, f) ensures DoubleAt(s, i).Some? && DoubleAt(s, i).value.end <= f {
      assert !IsLineEnd(s[i + 2]);
      assert NoLineEnd(s, i + 3, f - 2);
    }
  }

  lemma SingleAtMeaning(s: string, i: nat)
    ensures SingleAt(s, i).Some? <==> exists e: nat :: IsSingle(s, i, e) || IsShort(s, i, e)
    ensures SingleAt(s, i).Some? ==> var e := SingleAt(s, i).value.end;
      && (IsSingle(s, i, e) || (IsShort(s, i, e) && forall f: nat :: !IsSingle(s, i, f)))
      && forall f: nat :: IsSingle(s, i, f) ==> e <= f
  {
    FindSingleLeast(s, i + 2);
    if SingleAt(s, i).Some? {
      var e := SingleAt(s, i).value.end;
      assert IsSingle(s, i, e) || IsShort(s, i, e);
    }
    forall f: nat | IsSingle(s, i, f)
      ensures FindSingle(s, i + 2).Some? && SingleAt(s, i).Some? && SingleAt(s, i).value.end <= f
    {
      assert NoLineEnd(s, i + 2, f - 2);
    }
    if exists e: nat :: IsShort(s, i, e) {
      assert SingleAt(s, i).Some?;
    }
  }

  lemma MatchAtMeaning(s: string, i: nat)
    ensures MatchAt(s, i).None? <==> forall e: nat :: !IsDouble(s, i, e) && !IsSingle(s, i, e) && !IsShort(s, i, e)
    ensures MatchAt(s, i).Some? ==> var m := MatchAt(s, i).value;
      && (m.width == 2 <==> exists e: nat :: IsDouble(s, i, e))
      && (m.width == 2 ==> IsDouble(s, i, m.end) && forall e: nat :: IsDouble(s, i, e) ==> m.end <= e)
      && (m.width == 1 ==> IsSingle(s, i, m.end) || (IsShort(s, i, m.end) && forall e: nat :: !IsSingle(s, i, e)))
      && (m.width == 1 ==> forall e: nat :: IsSingle(s, i, e) ==> m.end <= e)
  {
    DoubleAtMeaning(s, i);
    SingleAtMeaning(s, i);
    if MatchAt(s, i).Some? { MatchText(s, i); }
  }
}
