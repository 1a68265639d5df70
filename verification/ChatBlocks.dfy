// The receptionist's replies as paragraphs and lists (chat-markdown.ts,
// parseChatMarkdown).
module ChatBlocks {
  import opened ChatInline
  import opened Common
  import opened Text

  type Line = seq<Inline>

  datatype Block =
    | Paragraph(lines: seq<Line>)
    | List(ordered: bool, start: nat, items: seq<Line>)

  // What one line of the reply is. A bullet counts as number 1.
  datatype Token = Blank | Item(ordered: bool, number: nat, item: Line) | Words(line: Line)

  // "\r\n" and "\r" become "\n".
  function Normalized(s: string): (r: string) {
    if s == [] then []
    else if s[0] != '\r' then [s[0]] + Normalized(s[1..])
    else ['\n'] + Normalized(if |s| > 1 && s[1] == '\n' then s[2..] else s[1..])
  }

  function Lines(text: string): (r: seq<string>) { Split(Normalized(text), "\n") }

  predicate OnOneLine(s: string) { forall i :: 0 <= i < |s| ==> !IsLineEnd(s[i]) }

  // \s+(.*)$ at position i: at least one space, and no line end after them.
  function AfterSpaces(s: string, i: nat): (r: Option<string>) {
    if i < |s| && IsSpace(s[i]) && OnOneLine(TrimStart(s[i..])) then Some(TrimStart(s[i..])) else None
  }

  // /^\s*[-*•]\s+(.*)$/
  function Bullet(line: string): (r: Option<string>) {
    var t := TrimStart(line);
    if t != [] && (t[0] == '-' || t[0] == '*' || t[0] == '\U{2022}') then AfterSpaces(t, 1) else None
  }

  function HashRun(s: string): (n: nat)
    ensures n <= |s|
  {
    if s != [] && s[0] == '#' then 1 + HashRun(s[1..]) else 0
  }

  // /^\s*(\d+)[.)]\s+(.*)$/
  function Numbered(line: string): (r: Option<(nat, string)>) {
    var t := TrimStart(line);
    var n := DigitRun(t);
    if n > 0 && n < |t| && (t[n] == '.' || t[n] == ')') then
      match AfterSpaces(t, n + 1)
      case Some(rest) => Some((DecimalValue(t[..n]), rest))
      case None => None
    else None
  }

  // /^\s*#{1,6}\s+(.*)$/
  function Heading(line: string): (r: Option<string>) {
    var t := TrimStart(line);
    var n := HashRun(t);
    if 1 <= n <= 6 then AfterSpaces(t, n) else None
  }

  function WithoutStars(s: string): (r: string) { Filter(s, c => c != '*') }

  function WordsOf(line: string): (r: Line) {
    match Heading(line)
    case Some(h) => [Inline(WithoutStars(h), true)]
    case None => Inlines(line)
  }

  function ReadLine(raw: string): (r: Token) {
    var line := TrimEnd(raw);
    if Trim(line) == [] then Blank
    else if Bullet(line).Some? then Item(false, 1, Inlines(Bullet(line).value))
    else if Numbered(line).Some? then Item(true, Numbered(line).value.0, Inlines(Numbered(line).value.1))
    else Words(WordsOf(line))
  }

  // Text a line can hold: one line, no space at either end.
  predicate Fits(x: string) {
    x != [] && !IsSpace(x[0]) && !IsSpace(x[|x| - 1]) && OnOneLine(x)
  }

  // A marked line may stand after spaces, have any between the mark and its
  // text, and end in some.
  function MarkedLine(before: string, mark: string, gap: string, x: string, after: string): (r: string) {
    before + (mark + (gap + x)) + after
  }

  lemma Marked(before: string, mark: string, gap: string, x: string, after: string)
    requires Fits(x) && mark != [] && !IsSpace(mark[0]) && AllSpace(before) && AllSpace(gap) && gap != [] && AllSpace(after)
    ensures var line := TrimEnd(MarkedLine(before, mark, gap, x, after)); var t := mark + (gap + x);
      && Trim(line) != [] && TrimStart(line) == t && AfterSpaces(t, |mark|) == Some(x)
  {
    var t := mark + (gap + x);
    assert t[|t| - 1] == x[|x| - 1] && t[0] == mark[0];
    hide TrimStart, TrimEnd, IsSpace;
    assert (before + t)[|before + t| - 1] == t[|t| - 1];
    TrimEndPast(before + t, after);
    TrimStartPast(before, t);
    assert t + [] == t;
    TrimEndPast(t, []);
    assert t[|mark|..] == gap + x && t[|mark|] == gap[0];
    TrimStartPast(gap, x);
  }

  // The three markers, written by the book, read back as written.
  lemma BulletReadsBack(before: string, mark: char, gap: string, x: string, after: string)
    requires Fits(x) && (mark == '-' || mark == '*' || mark == '\U{2022}')
    requires AllSpace(before) && AllSpace(gap) && gap != [] && AllSpace(after)
    ensures ReadLine(MarkedLine(before, [mark], gap, x, after)) == Item(false, 1, Inlines(x))
  {
    hide *;
    var raw := MarkedLine(before, [mark], gap, x, after);
    NotSpace(mark);
    Marked(before, [mark], gap, x, after);
    TextFirst([mark], gap + x);
    BulletFound(TrimEnd(raw), x);
    ReadAsBullet(raw);
  }

  lemma NotSpace(mark: char)
    requires mark == '-' || mark == '*' || mark == '\U{2022}'
    ensures !IsSpace(mark)
  {
  }

  lemma BulletFound(line: string, x: string)
    requires var t := TrimStart(line);
      t != [] && (t[0] == '-' || t[0] == '*' || t[0] == '\U{2022}') && AfterSpaces(t, 1) == Some(x)
    ensures Bullet(line) == Some(x)
  {
    hide TrimStart, AfterSpaces;
  }

  lemma ReadAsBullet(raw: string)
    requires Trim(TrimEnd(raw)) != [] && Bullet(TrimEnd(raw)).Some?
    ensures ReadLine(raw) == Item(false, 1, Inlines(Bullet(TrimEnd(raw)).value))
  {
    hide Inlines, Bullet, Trim, TrimEnd;
  }

  lemma TextFirst(mark: string, rest: string)
    requires mark != []
    ensures mark + rest != [] && (mark + rest)[0] == mark[0]
  {
  }

  function Hashes(k: nat): (r: string) { if k == 0 then [] else ['#'] + Hashes(k - 1) }

  lemma {:induction false} HashesRun(k: nat, rest: string)
    requires rest != [] ==> rest[0] != '#'
    ensures |Hashes(k)| == k && HashRun(Hashes(k) + rest) == k
  {
    if k == 0 {
      assert Hashes(k) + rest == rest;
    } else {
      assert (Hashes(k) + rest)[1..] == Hashes(k - 1) + rest;
      HashesRun(k - 1, rest);
    }
  }

  // One to six marks make a heading; more are words.
  lemma HeadingReadsBack(before: string, k: nat, gap: string, x: string, after: string)
    requires Fits(x) && k >= 1 && AllSpace(before) && AllSpace(gap) && gap != [] && AllSpace(after)
    ensures var line := MarkedLine(before, Hashes(k), gap, x, after);
      ReadLine(line) == Words(if k <= 6 then [Inline(WithoutStars(x), true)] else Inlines(TrimEnd(line)))
  {
    hide *;
    var line := TrimEnd(MarkedLine(before, Hashes(k), gap, x, after));
    HashesFirst(k);
    Marked(before, Hashes(k), gap, x, after);
    TextFirst(Hashes(k), gap + x);
    NotNumbered(line);
    HeadingFound(line, k, gap, x);
    ReadAsWords(MarkedLine(before, Hashes(k), gap, x, after));
  }

  lemma HashesFirst(k: nat)
    requires k >= 1
    ensures Hashes(k) != [] && Hashes(k)[0] == '#' && !IsSpace(Hashes(k)[0])
  {
  }

  lemma NotNumbered(line: string)
    requires TrimStart(line) != [] && TrimStart(line)[0] == '#'
    ensures Bullet(line).None? && Numbered(line).None?
  {
    hide AfterSpaces, TrimStart, DecimalValue;
  }

  lemma HeadingFound(line: string, k: nat, gap: string, x: string)
    requires k >= 1 && gap != [] && AllSpace(gap)
    requires TrimStart(line) == Hashes(k) + (gap + x) && AfterSpaces(Hashes(k) + (gap + x), |Hashes(k)|) == Some(x)
    ensures Heading(line) == if k <= 6 then Some(x) else None
  {
    assert IsSpace(gap[0]) && (gap + x)[0] == gap[0] && !IsSpace('#');
    hide AfterSpaces, TrimStart, HashRun, Hashes, IsSpace;
    HashesRun(k, gap + x);
  }

  lemma ReadAsWords(raw: string)
    requires Trim(TrimEnd(raw)) != [] && Bullet(TrimEnd(raw)).None? && Numbered(TrimEnd(raw)).None?
    ensures ReadLine(raw) == Words(match Heading(TrimEnd(raw))
      case Some(h) => [Inline(WithoutStars(h), true)]
      case None => Inlines(TrimEnd(raw)))
  {
    hide Inlines, WithoutStars, Bullet, Numbered, Heading, Trim, TrimEnd;
  }

  // A line of nothing but spaces is blank, and no other is.
  lemma BlankLines(raw: string)
    ensures ReadLine(raw).Blank? <==> AllSpace(raw)
  {
    hide Inlines, Bullet, Numbered, WordsOf, Trim, TrimEnd, AllSpace;
    TrimEndOfSpace(raw);
    TrimOfSpace(TrimEnd(raw));
  }

  // A line that begins with none of the marks is read as it is, spaces before
  // it and all.
  lemma PlainReadsBack(before: string, x: string, after: string)
    requires Fits(x) && AllSpace(before) && AllSpace(after)
    requires x[0] != '-' && x[0] != '*' && x[0] != '\U{2022}' && x[0] != '#' && !IsDigit(x[0])
    ensures ReadLine(before + x + after) == Words(Inlines(before + x))
  {
    var line := before + x;
    assert line[|line| - 1] == x[|x| - 1];
    TrimEndPast(line, after);
    TrimStartPast(before, x);
    assert x + [] == x;
    TrimEndPast(x, []);
    hide Inlines, AfterSpaces, TrimStart, TrimEnd, AllSpace;
    NoMark(line, x);
  }

  lemma NoMark(line: string, x: string)
    requires TrimStart(line) == x && x != []
    requires x[0] != '-' && x[0] != '*' && x[0] != '\U{2022}' && x[0] != '#' && !IsDigit(x[0])
    ensures Bullet(line).None? && Numbered(line).None? && Heading(line).None?
  {
    hide AfterSpaces, TrimStart;
  }

  lemma NumberReadsBack(before: string, n: nat, dot: char, gap: string, x: string, after: string)
    requires Fits(x) && (dot == '.' || dot == ')')
    requires AllSpace(before) && AllSpace(gap) && gap != [] && AllSpace(after)
    ensures ReadLine(MarkedLine(before, Digits(n) + [dot], gap, x, after)) == Item(true, n, Inlines(x))
  {
    hide *;
    var raw := MarkedLine(before, Digits(n) + [dot], gap, x, after);
    DigitsMark(n, dot);
    Marked(before, Digits(n) + [dot], gap, x, after);
    NumberFound(TrimEnd(raw), n, dot, gap, x);
    ReadAsNumber(raw);
  }

  lemma DigitsMark(n: nat, dot: char)
    ensures Digits(n) != [] && Digits(n) + [dot] != [] && !IsSpace((Digits(n) + [dot])[0])
  {
    hide Digits, DecimalValue;
    assert IsDigit(Digits(n)[0]);
  }

  lemma NumberFound(line: string, n: nat, dot: char, gap: string, x: string)
    requires dot == '.' || dot == ')'
    requires var t := Digits(n) + [dot] + (gap + x);
      TrimStart(line) == t && AfterSpaces(t, |Digits(n) + [dot]|) == Some(x)
    ensures Bullet(line).None? && Numbered(line) == Some((n, x))
  {
    hide AfterSpaces, TrimStart, Digits, DecimalValue, DigitRun;
    var d := Digits(n);
    var t := d + [dot] + (gap + x);
    assert IsDigit(d[0]) && t[0] == d[0];
    assert t == d + ([dot] + (gap + x)) && t[..|d|] == d && t[|d|] == dot;
    DigitRunAll(d, [dot] + (gap + x));
  }

  lemma ReadAsNumber(raw: string)
    requires Trim(TrimEnd(raw)) != [] && Bullet(TrimEnd(raw)).None? && Numbered(TrimEnd(raw)).Some?
    ensures ReadLine(raw) ==
      Item(true, Numbered(TrimEnd(raw)).value.0, Inlines(Numbered(TrimEnd(raw)).value.1))
  {
    hide Inlines, Bullet, Numbered, Trim, TrimEnd;
  }

  function ReadLines(lines: seq<string>): (r: seq<Token>)
    ensures |r| == |lines|
  {
    seq(|lines|, k requires 0 <= k < |lines| => ReadLine(lines[k]))
  }

  // ----------------------------------------------------------------- grouping

  // Whether b goes on with the block a is in.
  predicate GoesWith(a: Token, b: Token) {
    (a.Words? && b.Words?) || (a.Item? && b.Item? && a.ordered == b.ordered)
  }

  // How many tokens from the front go with `first`.
  function Run(first: Token, tokens: seq<Token>): (n: nat)
    ensures n <= |tokens|
    ensures forall k :: 0 <= k < n ==> GoesWith(first, tokens[k])
    ensures n < |tokens| ==> !GoesWith(first, tokens[n])
  {
    if tokens == [] || !GoesWith(first, tokens[0]) then 0 else 1 + Run(first, tokens[1..])
  }

  function Content(t: Token): (r: Line)
    requires !t.Blank?
  {
    if t.Item? then t.item else t.line
  }

  function Contents(run: seq<Token>): (r: seq<Line>)
    requires forall k :: 0 <= k < |run| ==> !run[k].Blank?
    ensures |r| == |run| && forall k :: 0 <= k < |r| ==> r[k] == Content(run[k])
  {
    if run == [] then [] else [Content(run[0])] + Contents(run[1..])
  }

  // Lines that belong in one block.
  ghost predicate IsRun(run: seq<Token>) {
    forall k :: 0 <= k < |run| ==> !run[k].Blank? && GoesWith(run[0], run[k])
  }

  function BlockOf(run: seq<Token>): (r: Block)
    requires run != [] && IsRun(run)
  {
    if run[0].Words? then Paragraph(Contents(run)) else List(run[0].ordered, run[0].number, Contents(run))
  }

  // The blocks of a reply: its maximal runs of lines that go together.
  function Group(tokens: seq<Token>): (r: seq<Block>) {
    if tokens == [] then []
    else if tokens[0].Blank? then Group(tokens[1..])
    else
      var n := Run(tokens[0], tokens);
      [BlockOf(tokens[..n])] + Group(tokens[n..])
  }

  // ------------------------------------------------------------- the machine

  // What is still open: nothing, a paragraph or a list.
  function Closed(paragraph: Option<seq<Line>>, list: Option<Block>): (r: seq<Block>) {
    (if paragraph.Some? then [Paragraph(paragraph.value)] else []) + (if list.Some? then [list.value] else [])
  }

  // The run of tokens that stands for what is open.
  ghost predicate Opened(paragraph: Option<seq<Line>>, list: Option<Block>, run: seq<Token>) {
    && IsRun(run)
    && (run == [] ==> paragraph.None? && list.None?)
    && (run != [] && run[0].Words? ==> list.None? && paragraph == Some(Contents(run)))
    && (run != [] && run[0].Item? ==>
      paragraph.None? && list == Some(List(run[0].ordered, run[0].number, Contents(run))))
  }

  // What is open closes as the run's block, or as nothing.
  lemma Closes(paragraph: Option<seq<Line>>, list: Option<Block>, run: seq<Token>)
    requires Opened(paragraph, list, run)
    ensures Closed(paragraph, list) == if run == [] then [] else [BlockOf(run)]
  {
  }

  // When the machine closes what is open is when the next token does not go
  // on with it.
  lemma Breaks(paragraph: Option<seq<Line>>, list: Option<Block>, run: seq<Token>, t: Token)
    requires Opened(paragraph, list, run)
    ensures Opened(None, None, []) && (list.Some? ==> run != [] && list.value.List?)
    ensures t.Item? ==> ((list.None? || list.value.ordered != t.ordered) <==> (run == [] || !GoesWith(run[0], t)))
    ensures t.Words? ==> (list.Some? ==> !GoesWith(run[0], t)) && (list.None? ==> run == [] || GoesWith(run[0], t))
    ensures t.Words? && list.None? ==> (paragraph.None? <==> run == [])
    ensures t.Blank? && run != [] ==> !GoesWith(run[0], t)
  {
  }

  lemma RunExtends(run: seq<Token>, t: Token)
    requires IsRun(run) && !t.Blank? && (run == [] || GoesWith(run[0], t))
    ensures IsRun(run + [t]) && Contents(run + [t]) == Contents(run) + [Content(t)]
  {
    hide Contents, Content;
    ContentsAppend(run, t);
    var more := run + [t];
    assert forall k :: 0 <= k < |run| ==> more[k] == run[k];
    assert more[|run|] == t && more[0] == if run == [] then t else run[0];
  }

  lemma ItemExtends(paragraph: Option<seq<Line>>, list: Option<Block>, run: seq<Token>, t: Token)
    requires Opened(paragraph, list, run) && t.Item? && run != [] && GoesWith(run[0], t)
    ensures list.Some? && list.value.List? && paragraph.None?
    ensures Opened(None, Some(list.value.(items := list.value.items + [t.item])), run + [t])
  {
    hide IsRun, Contents;
    RunExtends(run, t);
    assert (run + [t])[0] == run[0];
  }

  lemma ItemStarts(t: Token)
    requires t.Item?
    ensures Opened(None, Some(List(t.ordered, t.number, [] + [t.item])), [] + [t])
  {
    NothingOpened();
    hide IsRun, Contents;
    RunExtends([], t);
    assert [] + [t] == [t] && Contents([]) == [];
  }

  lemma WordsExtend(paragraph: Option<seq<Line>>, list: Option<Block>, run: seq<Token>, t: Token)
    requires Opened(paragraph, list, run) && t.Words? && (run == [] || GoesWith(run[0], t))
    ensures list.None? && Opened(Some(paragraph.GetOr([]) + [t.line]), None, run + [t])
  {
    hide IsRun, Contents;
    RunExtends(run, t);
    assert (run + [t])[0] == if run == [] then t else run[0];
    assert run == [] ==> Contents(run) == [];
  }

  // What closing does to the sum of what is done and what is to come.
  lemma Flushes(tokens: seq<Token>, blocks: seq<Block>, run: seq<Token>, k: nat)
    requires k < |tokens| && IsRun(run) && (run == [] || !GoesWith(run[0], tokens[k]))
    requires Group(tokens) == blocks + Group(run + tokens[k..])
    ensures var done := blocks + if run == [] then [] else [BlockOf(run)];
      && Group(tokens) == done + Group([] + tokens[k..])
      && (tokens[k].Blank? ==> Group(tokens) == done + Group([] + tokens[k + 1..]))
  {
    hide BlockOf, IsRun, GoesWith, Group;
    GroupStep(run, tokens, k);
    if tokens[k].Blank? { GroupBlank(tokens, k); }
    assert [] + tokens[k..] == tokens[k..] && [] + tokens[k + 1..] == tokens[k + 1..];
  }

  // parseChatMarkdown
  method ParseChatMarkdown(text: string) returns (blocks: seq<Block>)
    ensures blocks == Group(ReadLines(Lines(text)))
  {
    hide Lines, ReadLine, Group, Opened, BlockOf, GoesWith, IsRun, Closed, Content, Contents;
    blocks := [];
    var paragraph: Option<seq<Line>> := None;
    var list: Option<Block> := None;
    var lines := Lines(text);
    ghost var tokens := ReadLines(lines);
    ghost var run: seq<Token> := [];
    assert run + tokens[0..] == tokens;
    NothingOpened();
    for k := 0 to |lines|
      invariant Opened(paragraph, list, run) && IsRun(run)
      invariant list.Some? ==> list.value.List?
      invariant Group(tokens) == blocks + Group(run + tokens[k..])
    {
      var token := ReadLine(lines[k]);
      Closes(paragraph, list, run);
      Breaks(paragraph, list, run, token);
      if run == [] || !GoesWith(run[0], token) { Flushes(tokens, blocks, run, k); }
      match token {
        case Blank =>
          blocks := blocks + Closed(paragraph, list);
          paragraph, list := None, None;
          run := [];
        case Item(ordered, number, item) =>
          if list.None? || list.value.ordered != ordered {
            blocks := blocks + Closed(paragraph, list);
            paragraph, list := None, Some(List(ordered, number, []));
            run := [];
            ItemStarts(token);
          } else {
            ItemExtends(paragraph, list, run, token);
          }
          list := Some(list.value.(items := list.value.items + [item]));
          Regroup(tokens, blocks, run, k);
          run := run + [token];
        case Words(line) =>
          if list.Some? {
            blocks := blocks + Closed(paragraph, list);
            paragraph, list := None, None;
            run := [];
          }
          WordsExtend(paragraph, list, run, token);
          if paragraph.None? { paragraph := Some([]); }
          paragraph := Some(paragraph.value + [line]);
          Regroup(tokens, blocks, run, k);
          run := run + [token];
      }
      OpenedIsRun(paragraph, list, run);
    }
    GroupRun(run, []);
    Closes(paragraph, list, run);
    assert run + tokens[|lines|..] == run + [];
    blocks := blocks + Closed(paragraph, list);
  }

  lemma NothingOpened()
    ensures Opened(None, None, []) && IsRun([])
  {
  }

  lemma OpenedIsRun(paragraph: Option<seq<Line>>, list: Option<Block>, run: seq<Token>)
    requires Opened(paragraph, list, run)
    ensures IsRun(run)
  {
  }

  // Moving the next token into the run.
  lemma Regroup(tokens: seq<Token>, blocks: seq<Block>, run: seq<Token>, k: nat)
    requires k < |tokens| && Group(tokens) == blocks + Group(run + tokens[k..])
    ensures Group(tokens) == blocks + Group(run + [tokens[k]] + tokens[k + 1..])
  {
    hide Group;
    assert run + tokens[k..] == run + [tokens[k]] + tokens[k + 1..];
  }

  lemma ContentsAppend(run: seq<Token>, t: Token)
    requires forall k :: 0 <= k < |run| ==> !run[k].Blank?
    requires !t.Blank?
    ensures Contents(run + [t]) == Contents(run) + [Content(t)]
  {
  }

  // A run that cannot go on is a block of its own.
  lemma GroupRun(run: seq<Token>, rest: seq<Token>)
    requires IsRun(run)
    requires run != [] && rest != [] ==> !GoesWith(run[0], rest[0])
    ensures Group(run + rest) == (if run == [] then [] else [BlockOf(run)]) + Group(rest)
    ensures Group([]) == []
  {
    if run == [] {
      assert run + rest == rest;
    } else {
      var all := run + rest;
      var n := Run(all[0], all);
      assert rest != [] ==> all[|run|] == rest[0];
      assert all[..n] == run && all[n..] == rest;
    }
  }

  // Otherwise the first run is the first block.
  lemma GroupFirst(tokens: seq<Token>)
    requires tokens != [] && !tokens[0].Blank?
    ensures var n := Run(tokens[0], tokens);
      && 0 < n && IsRun(tokens[..n])
      && tokens == tokens[..n] + tokens[n..]
      && Group(tokens) == [BlockOf(tokens[..n])] + Group(tokens[n..])
  {
    RunFirst(tokens);
    hide BlockOf, Run, IsRun, GoesWith;
  }

  lemma RunFirst(tokens: seq<Token>)
    requires tokens != [] && !tokens[0].Blank?
    ensures var n := Run(tokens[0], tokens); 0 < n && IsRun(tokens[..n])
  {
  }

  lemma GroupStep(run: seq<Token>, tokens: seq<Token>, k: nat)
    requires IsRun(run) && k < |tokens| && (run == [] || !GoesWith(run[0], tokens[k]))
    ensures Group(run + tokens[k..]) == (if run == [] then [] else [BlockOf(run)]) + Group(tokens[k..])
  {
    hide *;
    GroupRun(run, tokens[k..]);
  }

  lemma GroupBlank(tokens: seq<Token>, k: nat)
    requires k < |tokens| && tokens[k].Blank?
    ensures Group(tokens[k..]) == Group(tokens[k + 1..])
  {
    assert tokens[k..][1..] == tokens[k + 1..];
  }

  // -------------------------------------------------------------- what it says

  // A line that is not blank, with the kind of block it belongs to.
  datatype Entry = Entry(listed: bool, ordered: bool, line: Line)

  function EntryOf(t: Token): (r: Entry)
    requires !t.Blank?
  {
    Entry(t.Item?, t.Item? && t.ordered, Content(t))
  }

  function Entries(tokens: seq<Token>): (r: seq<Entry>) {
    if tokens == [] then []
    else if tokens[0].Blank? then Entries(tokens[1..])
    else [EntryOf(tokens[0])] + Entries(tokens[1..])
  }

  function BlockLines(b: Block): (r: seq<Line>) { if b.Paragraph? then b.lines else b.items }

  function BlockEntries(b: Block, from: nat): (r: seq<Entry>)
    requires from <= |BlockLines(b)|
    decreases |BlockLines(b)| - from
  {
    if from == |BlockLines(b)| then []
    else [Entry(b.List?, b.List? && b.ordered, BlockLines(b)[from])] + BlockEntries(b, from + 1)
  }

  function Flatten(blocks: seq<Block>): (r: seq<Entry>) {
    if blocks == [] then [] else BlockEntries(blocks[0], 0) + Flatten(blocks[1..])
  }

  lemma {:induction false} RunEntries(run: seq<Token>, from: nat)
    requires run != [] && from <= |run| && IsRun(run)
    ensures Entries(run[from..]) == BlockEntries(BlockOf(run), from)
    decreases |run| - from
  {
    if from < |run| {
      RunEntries(run, from + 1);
      assert run[from..][1..] == run[from + 1..];
      assert GoesWith(run[0], run[from]);
    }
  }

  lemma {:induction false} EntriesAppend(a: seq<Token>, b: seq<Token>)
    ensures Entries(a + b) == Entries(a) + Entries(b)
  {
    if a == [] {
      assert a + b == b;
    } else {
      assert (a + b)[1..] == a[1..] + b;
      EntriesAppend(a[1..], b);
    }
  }

  // Nothing is lost or invented: the paragraph lines and list items, in
  // order, are the lines that are not blank, each in a block of its kind.
  lemma {:induction false} GroupFlattens(tokens: seq<Token>)
    ensures Flatten(Group(tokens)) == Entries(tokens)
    decreases |tokens|
  {
    if tokens == [] {
    } else if tokens[0].Blank? {
      GroupFlattens(tokens[1..]);
    } else {
      GroupFirst(tokens);
      var n := Run(tokens[0], tokens);
      var run, rest := tokens[..n], tokens[n..];
      GroupFlattens(rest);
      hide *;
      FlattenFirst(BlockOf(run), Group(rest));
      RunEntries(run, 0);
      EntriesAppend(run, rest);
      assert run[0..] == run;
    }
  }

  lemma FlattenFirst(b: Block, blocks: seq<Block>)
    ensures Flatten([b] + blocks) == BlockEntries(b, 0) + Flatten(blocks)
  {
    assert ([b] + blocks)[1..] == blocks;
  }

  // Block k is a maximal run of lines: it starts at line `from`, what stands
  // before and after it does not go with it, and a numbered list starts at
  // the number written on its first line.
  ghost predicate IsMaximalRun(tokens: seq<Token>, from: nat, to: nat, b: Block) {
    && from < to <= |tokens|
    && (forall k :: from <= k < to ==> GoesWith(tokens[from], tokens[k]))
    && (from > 0 ==> !GoesWith(tokens[from], tokens[from - 1]))
    && (to < |tokens| ==> !GoesWith(tokens[from], tokens[to]))
    && (b.Paragraph? <==> tokens[from].Words?)
    && (b.List? ==> b.start == tokens[from].number && b.ordered == tokens[from].ordered)
    && |BlockLines(b)| == to - from
    && forall k :: from <= k < to ==> BlockLines(b)[k - from] == Content(tokens[k])
  }

  // Where the blocks lie: from and to of each.
  ghost predicate Laid(tokens: seq<Token>, blocks: seq<Block>, spans: seq<(nat, nat)>) {
    && |spans| == |blocks|
    && (forall k :: 0 <= k < |blocks| ==> IsMaximalRun(tokens, spans[k].0, spans[k].1, blocks[k]))
    && (forall j, k :: 0 <= j < k < |spans| ==> spans[j].1 <= spans[k].0)
  }

  function Spans(tokens: seq<Token>, from: nat): (r: seq<(nat, nat)>)
    requires from <= |tokens|
    decreases |tokens| - from
  {
    if from == |tokens| then []
    else if tokens[from].Blank? then Spans(tokens, from + 1)
    else
      var n := Run(tokens[from], tokens[from..]);
      [(from, from + n)] + Spans(tokens, from + n)
  }

  lemma LaidFirst(tokens: seq<Token>, b: Block, from: nat, to: nat, blocks: seq<Block>, spans: seq<(nat, nat)>)
    requires IsMaximalRun(tokens, from, to, b) && Laid(tokens, blocks, spans)
    requires forall k :: 0 <= k < |spans| ==> to <= spans[k].0
    ensures Laid(tokens, [b] + blocks, [(from, to)] + spans)
    ensures forall k :: 0 <= k <= |spans| ==> from <= ([(from, to)] + spans)[k].0
  {
    assert from < to;
    hide IsMaximalRun;
  }

  lemma {:induction false} SpansLaid(tokens: seq<Token>, from: nat)
    requires from <= |tokens|
    requires 0 < from < |tokens| ==> !GoesWith(tokens[from], tokens[from - 1])
    ensures Laid(tokens, Group(tokens[from..]), Spans(tokens, from))
    ensures forall k :: 0 <= k < |Spans(tokens, from)| ==> from <= Spans(tokens, from)[k].0
    decreases |tokens| - from
  {
    hide *;
    if from == |tokens| {
      SpansEnd(tokens);
    } else if tokens[from].Blank? {
      SpansFromBlank(tokens, from);
      SpansLaid(tokens, from + 1);
    } else {
      SpansFromRun(tokens, from);
      var n := Run(tokens[from], tokens[from..]);
      SpansLaid(tokens, from + n);
      LaidFirst(tokens, BlockOf(tokens[from..][..n]), from, from + n, Group(tokens[from + n..]), Spans(tokens, from + n));
    }
  }

  lemma SpansEnd(tokens: seq<Token>)
    ensures Laid(tokens, Group(tokens[|tokens|..]), Spans(tokens, |tokens|)) && Spans(tokens, |tokens|) == []
  {
  }

  lemma SpansFromBlank(tokens: seq<Token>, from: nat)
    requires from < |tokens| && tokens[from].Blank?
    ensures Group(tokens[from..]) == Group(tokens[from + 1..])
    ensures Spans(tokens, from) == Spans(tokens, from + 1)
    ensures from + 1 < |tokens| ==> !GoesWith(tokens[from + 1], tokens[from])
  {
    assert tokens[from..][1..] == tokens[from + 1..];
  }

  lemma SpansFromRun(tokens: seq<Token>, from: nat)
    requires from < |tokens| && !tokens[from].Blank?
    requires from > 0 ==> !GoesWith(tokens[from], tokens[from - 1])
    ensures var n := Run(tokens[from], tokens[from..]);
      && 0 < n && from + n <= |tokens|
      && IsRun(tokens[from..][..n])
      && Group(tokens[from..]) == [BlockOf(tokens[from..][..n])] + Group(tokens[from + n..])
      && Spans(tokens, from) == [(from, from + n)] + Spans(tokens, from + n)
      && IsMaximalRun(tokens, from, from + n, BlockOf(tokens[from..][..n]))
      && (from + n < |tokens| ==> !GoesWith(tokens[from + n], tokens[from + n - 1]))
  {
    hide Group, BlockOf, IsMaximalRun, Run, GoesWith, IsRun;
    var n := Run(tokens[from], tokens[from..]);
    RunIsMaximal(tokens, from, n);
    GroupFirst(tokens[from..]);
    assert tokens[from..][n..] == tokens[from + n..];
  }

  lemma RunIsMaximal(tokens: seq<Token>, from: nat, n: nat)
    requires from < |tokens| && !tokens[from].Blank?
    requires from > 0 ==> !GoesWith(tokens[from], tokens[from - 1])
    requires n == Run(tokens[from], tokens[from..])
    ensures n > 0 && IsRun(tokens[from..][..n])
    ensures IsMaximalRun(tokens, from, from + n, BlockOf(tokens[from..][..n]))
    ensures 0 < from + n < |tokens| ==> !GoesWith(tokens[from + n], tokens[from + n - 1])
  {
    var run := tokens[from..][..n];
    forall k | from <= k < from + n ensures GoesWith(tokens[from], tokens[k]) {
      assert tokens[from..][k - from] == tokens[k];
    }
    forall k | from <= k < from + n ensures run[k - from] == tokens[k] {
    }
  }

  // Main result on the reply: its blocks, in order, are exactly its maximal
  // runs of lines of one kind; none is empty, and every numbered list starts
  // at the number on its first line.
  lemma BlocksAreTheRuns(text: string)
    ensures var tokens := ReadLines(Lines(text)); var blocks := Group(tokens);
      && Flatten(blocks) == Entries(tokens)
      && (forall k :: 0 <= k < |blocks| ==> BlockLines(blocks[k]) != [])
      && exists spans :: Laid(tokens, blocks, spans)
  {
    var tokens := ReadLines(Lines(text));
    GroupFlattens(tokens);
    SpansLaid(tokens, 0);
    assert tokens[0..] == tokens;
    forall k | 0 <= k < |Group(tokens)| ensures BlockLines(Group(tokens)[k]) != [] {
      var s := Spans(tokens, 0)[k];
      assert IsMaximalRun(tokens, s.0, s.1, Group(tokens)[k]);
    }
  }

  // The lines are the reply, cut at its line ends.
  lemma LinesJoin(text: string)
    ensures Join(Lines(text), "\n") == Normalized(text)
    ensures forall k :: 0 <= k < |Lines(text)| ==> !Occurs(Lines(text)[k], "\n")
  {
    JoinSplit(Normalized(text), "\n");
    PartsHoldNoWord(Normalized(text), "\n");
  }

  // Lines with a line end between each two.
  function TextOf(lines: seq<string>, ends: seq<string>): (r: string)
    requires |lines| == |ends| + 1
  {
    if ends == [] then lines[0] else lines[0] + ends[0] + TextOf(lines[1..], ends[1..])
  }

  predicate IsEnd(end: string) { end == "\n" || end == "\r\n" || end == "\r" }

  // A lone CR is not followed by an LF, which would make one line end of two.
  predicate ProperEnds(lines: seq<string>, ends: seq<string>)
    requires |lines| == |ends| + 1
  {
    && (forall k :: 0 <= k < |ends| ==> IsEnd(ends[k]))
    && forall k :: 0 < k < |ends| ==> ends[k - 1] == "\r" && lines[k] == [] ==> ends[k] != "\n"
  }

  lemma {:induction false} LineNormalized(line: string, rest: string)
    requires '\r' !in line
    ensures Normalized(line + rest) == line + Normalized(rest)
  {
    if line == [] {
      assert line + rest == rest;
    } else {
      LineNormalized(line[1..], rest);
      assert (line + rest)[1..] == line[1..] + rest && line == [line[0]] + line[1..];
    }
  }

  lemma EndNormalized(end: string, rest: string)
    requires IsEnd(end) && (end == "\r" ==> rest == [] || rest[0] != '\n')
    ensures Normalized(end + rest) == "\n" + Normalized(rest)
  {
    var s := end + rest;
    assert end == "\r\n" ==> s[2..] == rest;
    assert |end| == 1 ==> s[1..] == rest;
  }

  lemma {:induction false} LineSplit(line: string, rest: string)
    requires '\n' !in line
    ensures Split(line + "\n" + rest, "\n") == [line] + Split(rest, "\n")
    ensures Split(line, "\n") == [line]
  {
    var s := line + "\n" + rest;
    if line == [] {
      assert "\n" <= s && s[1..] == rest;
    } else {
      LineSplit(line[1..], rest);
      assert s[1..] == line[1..] + "\n" + rest && line == [line[0]] + line[1..];
      assert !("\n" <= s) && !("\n" <= line);
    }
  }

  lemma TailProper(lines: seq<string>, ends: seq<string>)
    requires |lines| == |ends| + 1 && ends != [] && ProperEnds(lines, ends)
    ensures ProperEnds(lines[1..], ends[1..])
  {
    hide IsEnd;
    assert forall k :: 0 <= k < |ends| - 1 ==> ends[1..][k] == ends[k + 1];
    assert forall k :: 0 < k < |ends| - 1 ==> lines[1..][k] == lines[k + 1] && ends[1..][k - 1] == ends[k];
  }

  // A text begins with its first line, or with the end of an empty one.
  lemma TextBegins(lines: seq<string>, ends: seq<string>)
    requires |lines| == |ends| + 1
    requires '\n' !in lines[0] && (lines[0] == [] && ends != [] ==> IsEnd(ends[0]) && ends[0] != "\n")
    ensures var text := TextOf(lines, ends); text == [] || text[0] != '\n'
  {
    var text := TextOf(lines, ends);
    assert lines[0] != [] ==> text[0] == lines[0][0];
    assert lines[0] == [] && ends != [] ==> text[0] == ends[0][0];
  }

  lemma AfterFirstEnd(lines: seq<string>, ends: seq<string>)
    requires |lines| == |ends| + 1 && ends != [] && ProperEnds(lines, ends)
    requires '\n' !in lines[1]
    ensures ProperEnds(lines[1..], ends[1..]) && IsEnd(ends[0])
    ensures var rest := TextOf(lines[1..], ends[1..]);
      && TextOf(lines, ends) == lines[0] + (ends[0] + rest)
      && (ends[0] == "\r" ==> rest == [] || rest[0] != '\n')
  {
    TailProper(lines, ends);
    hide IsEnd;
    assert lines[1..][0] == lines[1] && (|ends| > 1 ==> ends[1..][0] == ends[1]);
    assert TextOf(lines, ends) == lines[0] + (ends[0] + TextOf(lines[1..], ends[1..]));
    if ends[0] == "\r" {
      assert |ends| > 1 ==> IsEnd(ends[1]) && (lines[1] == [] ==> ends[1] != "\n");
      hide TextOf;
      TextBegins(lines[1..], ends[1..]);
    }
  }

  // However the lines end, Windows, Unix or old Mac, they are read as lines.
  lemma {:induction false} AnyLineEnds(lines: seq<string>, ends: seq<string>)
    requires |lines| == |ends| + 1 && ProperEnds(lines, ends)
    requires forall k :: 0 <= k < |lines| ==> '\r' !in lines[k] && '\n' !in lines[k]
    ensures Lines(TextOf(lines, ends)) == lines
    decreases |ends|
  {
    hide Normalized, Split, ProperEnds;
    if ends == [] {
      LineNormalized(lines[0], []);
      assert lines[0] + [] == lines[0] && Normalized([]) == [] by { NothingNormalized(); }
      LineSplit(lines[0], []);
    } else {
      hide TextOf;
      var rest := TextOf(lines[1..], ends[1..]);
      AfterFirstEnd(lines, ends);
      AnyLineEnds(lines[1..], ends[1..]);
      LineNormalized(lines[0], ends[0] + rest);
      EndNormalized(ends[0], rest);
      assert Normalized(TextOf(lines, ends)) == lines[0] + "\n" + Normalized(rest);
      LineSplit(lines[0], Normalized(rest));
    }
  }

  lemma NothingNormalized()
    ensures Normalized([]) == []
  {
  }
}
