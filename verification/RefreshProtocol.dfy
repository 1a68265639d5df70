// The API client's session refresh (api.ts): any number of requests and the
// proactive timer share one call to /auth/refresh, and a request that was
// answered 401 is sent once more if the refresh worked.
//
// JavaScript runs one piece of code at a time and may switch at each await,
// so the protocol is a machine whose steps are those pieces.
module RefreshProtocol {
  import opened Common
  import opened Text

  // ---------------------------------------------------------------- endpoints

  const CREDENTIAL_ENDPOINTS := [
    "/auth/login", "/auth/2fa/verify", "/auth/register",
    "/auth/forgot-password", "/auth/reset-password", "/auth/verify-email"
  ]

  predicate IsCredentialEndpoint(endpoint: string) {
    Split(endpoint, "?")[0] in CREDENTIAL_ENDPOINTS
  }

  const REFRESH_ENDPOINT := "/auth/refresh"

  // What decides how a 401 is taken.
  datatype Kind = Credential | Refresh | Plain

  function KindOf(endpoint: string): (r: Kind) {
    if IsCredentialEndpoint(endpoint) then Credential
    else if REFRESH_ENDPOINT <= endpoint then Refresh
    else Plain
  }

  lemma {:induction false} FirstPart(path: string, query: string)
    requires '?' !in path
    ensures Split(path, "?") == [path]
    ensures Split(path + "?" + query, "?")[0] == path
  {
    if path == [] {
      SplitHere(query);
    } else {
      FirstPart(path[1..], query);
      SplitLater(path);
      SplitLater(path + "?" + query);
      assert (path + "?" + query)[1..] == path[1..] + "?" + query;
      assert path == [path[0]] + path[1..];
    }
  }

  lemma SplitHere(query: string)
    ensures Split("?" + query, "?")[0] == [] && Split([], "?") == [[]]
    ensures [] + "?" + query == "?" + query
  {
  }

  lemma SplitLater(s: string)
    requires s != [] && s[0] != '?'
    ensures var rest := Split(s[1..], "?"); Split(s, "?") == [[s[0]] + rest[0]] + rest[1..]
  {
    assert !("?" <= s);
  }

  lemma RefreshIsNotCredential(path: string)
    requires REFRESH_ENDPOINT <= path
    ensures path !in CREDENTIAL_ENDPOINTS
  {
    assert path[6] == 'r' && path[7] == 'e' && path[8] == 'f';
    forall k | 0 <= k < |CREDENTIAL_ENDPOINTS| ensures path != CREDENTIAL_ENDPOINTS[k] {
    }
  }

  // A query string never changes how a 401 is taken, and the refresh endpoint
  // is never taken for a credential one.
  lemma QueryIsIgnored(path: string, query: string)
    requires '?' !in path
    ensures IsCredentialEndpoint(path + "?" + query) <==> path in CREDENTIAL_ENDPOINTS
    ensures IsCredentialEndpoint(path) <==> path in CREDENTIAL_ENDPOINTS
    ensures REFRESH_ENDPOINT <= path ==> KindOf(path + "?" + query) == Refresh == KindOf(path)
  {
    hide Split;
    FirstPart(path, query);
    if REFRESH_ENDPOINT <= path {
      RefreshIsNotCredential(path);
      assert path + "?" + query == path + ("?" + query);
    }
  }

  // ----------------------------------------------------------- login redirect

  function LoginPage(isSaasUser: bool): (r: string) { if isSaasUser then "/saas/login" else "/login" }

  function LoginRedirectTarget(currentPath: string, isSaasUser: bool, isClient: bool): (r: Option<string>) {
    if isClient then None
    else
      var target := LoginPage(isSaasUser);
      var n := |currentPath|;
      var normalized := if n > 1 && currentPath[n - 1] == '/' then currentPath[..n - 1] else currentPath;
      if normalized == target then None else Some(target)
  }

  // A 401 never sends the browser to the page it is on, with or without a
  // slash at its end, and sends it somewhere unless it is there or the user is
  // a salon's client.
  lemma NeverTheSamePage(currentPath: string, isSaasUser: bool, isClient: bool)
    ensures var to := LoginRedirectTarget(currentPath, isSaasUser, isClient);
      var page := if isSaasUser then "/saas/login" else "/login";
      && (to.Some? ==> to.value == page && page != currentPath && page + "/" != currentPath)
      && (to.None? <==> isClient || currentPath == page || currentPath == page + "/")
      && (to.Some? ==> LoginRedirectTarget(to.value, isSaasUser, isClient).None?)
  {
    var page := LoginPage(isSaasUser);
    var n := |currentPath|;
    if n > 1 && currentPath[n - 1] == '/' {
      assert currentPath == currentPath[..n - 1] + "/";
    }
    assert (page + "/")[..|page|] == page;
  }

  // -------------------------------------------------------------- the machine

  datatype Outcome = Answered | CredentialsRefused | SignedOut

  // Where a caller stands. `leader` is the caller that started the refresh.
  datatype Phase =
    | Sent
    | Waiting(leader: bool)
    | Woken(ok: bool)
    | Done(outcome: Outcome)

  // `joined` remembers which call to /auth/refresh the caller awaited.
  datatype Caller =
    | Request(kind: Kind, sends: nat, phase: Phase, joined: Option<nat>)
    | Timer(phase: Phase, joined: Option<nat>)

  // refreshes[p] is None while call p to /auth/refresh is in flight, then
  // whether it worked. inFlight is the field refreshInFlight.
  datatype State = State(callers: seq<Caller>, refreshes: seq<Option<bool>>, inFlight: Option<nat>)

  datatype Step =
    | StartRequest(kind: Kind)          // request() up to its fetch
    | TimerFires                        // the proactive timer
    | Reply(c: nat, unauthorized: bool) // the answer to a request
    | RefreshReply(p: nat, ok: bool)    // the answer of /auth/refresh
    | Wake(c: nat)                      // the await of a refresh returns
    | Resume(c: nat)                    // the caller goes on

  const IDLE := State([], [], None)

  function SetPhase(s: State, c: nat, phase: Phase): (r: State)
    requires c < |s.callers|
  {
    s.(callers := s.callers[c := s.callers[c].(phase := phase)])
  }

  function Await(s: State, c: nat, p: nat, leader: bool): (r: State)
    requires c < |s.callers|
  {
    s.(callers := s.callers[c := s.callers[c].(phase := Waiting(leader), joined := Some(p))])
  }

  // refreshAccessToken up to its await: join the refresh in flight, or start
  // one and lead it.
  function JoinRefresh(s: State, c: nat): (r: State)
    requires c < |s.callers|
  {
    match s.inFlight
    case Some(p) => Await(s, c, p, false)
    case None =>
      var p := |s.refreshes|;
      Await(s.(refreshes := s.refreshes + [None], inFlight := Some(p)), c, p, true)
  }

  // The refresh a caller awaited, once it is settled.
  predicate Settled(r: Caller, refreshes: seq<Option<bool>>) {
    r.joined.Some? && r.joined.value < |refreshes| && refreshes[r.joined.value].Some?
  }

  predicate SettledAs(r: Caller, refreshes: seq<Option<bool>>, ok: bool) {
    Settled(r, refreshes) && refreshes[r.joined.value].value == ok
  }

  predicate Enabled(s: State, step: Step) {
    match step
    case StartRequest(_) => true
    case TimerFires => true
    case Reply(c, _) => c < |s.callers| && s.callers[c].Request? && s.callers[c].phase.Sent?
    case RefreshReply(p, _) => p < |s.refreshes| && s.refreshes[p].None?
    case Wake(c) => c < |s.callers| && s.callers[c].phase.Waiting? && Settled(s.callers[c], s.refreshes)
    case Resume(c) => c < |s.callers| && s.callers[c].phase.Woken?
  }

  function Do(s: State, step: Step): (r: State)
    requires Enabled(s, step)
  {
    match step
    case StartRequest(kind) => s.(callers := s.callers + [Request(kind, 1, Sent, None)])
    case TimerFires =>
      JoinRefresh(s.(callers := s.callers + [Timer(Sent, None)]), |s.callers|)
    case Reply(c, unauthorized) =>
      var r := s.callers[c];
      if !unauthorized then SetPhase(s, c, Done(Answered))
      else if r.kind.Credential? then SetPhase(s, c, Done(CredentialsRefused))
      else if r.sends == 1 && r.kind.Plain? then JoinRefresh(s, c)
      else SetPhase(s, c, Done(SignedOut))
    case RefreshReply(p, ok) => s.(refreshes := s.refreshes[p := Some(ok)])
    case Wake(c) =>
      var w := s.callers[c];
      var woken := SetPhase(s, c, Woken(s.refreshes[w.joined.value].value));
      // The leader's finally block.
      if w.phase.leader then woken.(inFlight := None) else woken
    case Resume(c) =>
      var r := s.callers[c];
      if r.Timer? then SetPhase(s, c, Done(Answered))
      else if r.phase.ok then s.(callers := s.callers[c := r.(sends := r.sends + 1, phase := Sent)])
      else SetPhase(s, c, Done(SignedOut))
  }

  // --------------------------------------------------------------- invariant

  // Only a plain request, answered 401 once, takes part in a refresh; nothing
  // is sent more than twice, and only plain requests are sent twice.
  predicate CallerOk(r: Caller, refreshes: seq<Option<bool>>, inFlight: Option<nat>) {
    && (r.Request? ==>
      && 1 <= r.sends <= 2
      && (r.joined.Some? ==> r.kind.Plain?)
      && (r.sends == 2 ==> SettledAs(r, refreshes, true))
      && (r.sends == 1 && r.phase.Sent? ==> r.joined.None?)
      && (r.phase.Waiting? || r.phase.Woken? ==> r.sends == 1)
      && (r.phase == Done(CredentialsRefused) ==> r.kind.Credential?)
      && (r.phase == Done(SignedOut) && r.sends == 1 ==> r.kind.Refresh? || SettledAs(r, refreshes, false)))
    && (r.Timer? ==> !r.phase.Sent?)
    && (r.phase.Waiting? ==> r.joined.Some? && r.joined.value < |refreshes|)
    && (Leads(r) ==> inFlight == r.joined)
    && (r.phase.Woken? ==> SettledAs(r, refreshes, r.phase.ok))
  }

  predicate Leads(r: Caller) { r.phase.Waiting? && r.phase.leader }

  ghost predicate HasLeader(callers: seq<Caller>) {
    exists c :: 0 <= c < |callers| && Leads(callers[c])
  }

  ghost predicate OneLeader(callers: seq<Caller>) {
    forall c, d :: 0 <= c < |callers| && 0 <= d < |callers| && Leads(callers[c]) && Leads(callers[d]) ==> c == d
  }

  // A refresh in flight is the one in the field: there is at most one. The
  // field is set exactly while its one leader waits.
  ghost predicate FieldOk(s: State) {
    && (forall p :: 0 <= p < |s.refreshes| && s.refreshes[p].None? ==> s.inFlight == Some(p))
    && (s.inFlight.Some? ==> s.inFlight.value < |s.refreshes| && HasLeader(s.callers))
    && OneLeader(s.callers)
  }

  ghost predicate Valid(s: State) {
    && (forall c :: 0 <= c < |s.callers| ==> CallerOk(s.callers[c], s.refreshes, s.inFlight))
    && FieldOk(s)
  }

  // Changing a caller that does not lead, to one that does not.
  lemma FollowerMoves(callers: seq<Caller>, c: nat, r: Caller)
    requires c < |callers| && !Leads(callers[c]) && !Leads(r)
    ensures HasLeader(callers[c := r]) <==> HasLeader(callers)
    ensures OneLeader(callers) ==> OneLeader(callers[c := r])
  {
    var after := callers[c := r];
    if HasLeader(callers) {
      var d :| 0 <= d < |callers| && Leads(callers[d]);
      assert Leads(after[d]);
    }
    if HasLeader(after) {
      var d :| 0 <= d < |after| && Leads(after[d]);
      assert Leads(callers[d]);
    }
    assert forall d :: 0 <= d < |callers| ==> (Leads(after[d]) <==> Leads(callers[d]));
  }

  lemma CallerAdded(callers: seq<Caller>, r: Caller)
    requires !Leads(r)
    ensures HasLeader(callers + [r]) <==> HasLeader(callers)
    ensures OneLeader(callers) ==> OneLeader(callers + [r])
  {
    var after := callers + [r];
    if HasLeader(callers) {
      var d :| 0 <= d < |callers| && Leads(callers[d]);
      assert Leads(after[d]);
    }
    assert forall d :: 0 <= d < |callers| ==> after[d] == callers[d];
  }

  lemma JoinKeepsValid(s: State, c: nat)
    requires c < |s.callers| && FieldOk(s)
    requires s.callers[c].phase.Sent? && (s.callers[c].Request? ==> s.callers[c].kind.Plain? && s.callers[c].sends == 1)
    requires forall d :: 0 <= d < |s.callers| && d != c ==> CallerOk(s.callers[d], s.refreshes, s.inFlight)
    ensures Valid(JoinRefresh(s, c))
  {
    var t := JoinRefresh(s, c);
    if s.inFlight.Some? {
      FollowerMoves(s.callers, c, t.callers[c]);
    } else {
      assert forall d :: 0 <= d < |t.callers| && d != c ==> t.callers[d] == s.callers[d] && !Leads(t.callers[d]);
      assert Leads(t.callers[c]);
    }
  }

  lemma ReplyKeepsValid(s: State, c: nat, unauthorized: bool)
    requires Valid(s) && Enabled(s, Reply(c, unauthorized))
    ensures Valid(Do(s, Reply(c, unauthorized)))
  {
    var t := Do(s, Reply(c, unauthorized));
    assert CallerOk(s.callers[c], s.refreshes, s.inFlight);
    if unauthorized && s.callers[c].kind.Plain? && s.callers[c].sends == 1 {
      JoinKeepsValid(s, c);
    } else {
      FollowerMoves(s.callers, c, t.callers[c]);
      assert forall d :: 0 <= d < |t.callers| && d != c ==> t.callers[d] == s.callers[d];
    }
  }

  lemma ResumeKeepsValid(s: State, c: nat)
    requires Valid(s) && Enabled(s, Resume(c))
    ensures Valid(Do(s, Resume(c)))
  {
    var t := Do(s, Resume(c));
    assert CallerOk(s.callers[c], s.refreshes, s.inFlight);
    FollowerMoves(s.callers, c, t.callers[c]);
    assert forall d :: 0 <= d < |t.callers| && d != c ==> t.callers[d] == s.callers[d];
  }

  lemma StepKeepsValid(s: State, step: Step)
    requires Valid(s) && Enabled(s, step)
    ensures Valid(Do(s, step))
  {
    match step {
      case StartRequest(kind) => CallerAdded(s.callers, Request(kind, 1, Sent, None));
      case TimerFires =>
        CallerAdded(s.callers, Timer(Sent, None));
        JoinKeepsValid(s.(callers := s.callers + [Timer(Sent, None)]), |s.callers|);
      case Reply(c, unauthorized) => ReplyKeepsValid(s, c, unauthorized);
      case RefreshReply(p, ok) =>
      case Wake(c) =>
        if s.callers[c].phase.leader {
          LeaderWakes(s, c);
        } else {
          FollowerMoves(s.callers, c, Do(s, step).callers[c]);
        }
      case Resume(c) => ResumeKeepsValid(s, c);
    }
  }

  lemma LeaderWakes(s: State, c: nat)
    requires Valid(s) && Enabled(s, Wake(c)) && Leads(s.callers[c])
    ensures Valid(Do(s, Wake(c)))
  {
    var t := Do(s, Wake(c));
    assert CallerOk(s.callers[c], s.refreshes, s.inFlight);
    forall d | 0 <= d < |t.callers| ensures !Leads(t.callers[d]) && CallerOk(t.callers[d], t.refreshes, t.inFlight) {
      assert d != c ==> t.callers[d] == s.callers[d] && CallerOk(s.callers[d], s.refreshes, s.inFlight);
    }
  }

  // ------------------------------------------------------------------- runs

  ghost predicate IsRun(s: State, steps: seq<Step>)
    decreases |steps|
  {
    steps == [] || (Enabled(s, steps[0]) && IsRun(Do(s, steps[0]), steps[1..]))
  }

  function After(s: State, steps: seq<Step>): (r: State)
    requires IsRun(s, steps)
    decreases |steps|
  {
    if steps == [] then s else After(Do(s, steps[0]), steps[1..])
  }

  lemma {:induction false} RunKeepsValid(s: State, steps: seq<Step>)
    requires Valid(s) && IsRun(s, steps)
    ensures Valid(After(s, steps))
    decreases |steps|
  {
    if steps != [] {
      StepKeepsValid(s, steps[0]);
      RunKeepsValid(Do(s, steps[0]), steps[1..]);
    }
  }

  // Main result, safety: in every interleaving of any number of requests and
  // timers at most one refresh is in flight, and every caller is served as
  // Served says.
  lemma Safety(steps: seq<Step>)
    requires IsRun(IDLE, steps)
    ensures var s := After(IDLE, steps);
      && (forall p, q :: 0 <= p < q < |s.refreshes| ==> s.refreshes[p].Some? || s.refreshes[q].Some?)
      && (forall c :: 0 <= c < |s.callers| ==> Served(s, s.callers[c]))
  {
    RunKeepsValid(IDLE, steps);
    var s := After(IDLE, steps);
    forall c | 0 <= c < |s.callers| ensures Served(s, s.callers[c]) {
      assert CallerOk(s.callers[c], s.refreshes, s.inFlight);
    }
  }

  // No request is sent more than twice, and it is sent twice only after the
  // refresh it awaited worked; a plain request signs the user out after one
  // send only if the refresh it awaited failed; requests to credential and
  // refresh endpoints await no refresh and are sent once; whoever was woken
  // has the outcome of the refresh it awaited.
  predicate Served(s: State, r: Caller) {
    && (r.Request? ==> r.sends <= 2)
    && (r.Request? && r.sends == 2 ==> SettledAs(r, s.refreshes, true))
    && (r.Request? && r.kind.Plain? && r.sends == 1 && r.phase == Done(SignedOut) ==> SettledAs(r, s.refreshes, false))
    && (r.Request? && !r.kind.Plain? ==> r.sends == 1 && r.joined.None?)
    && (r.Request? && r.phase == Done(CredentialsRefused) ==> r.kind.Credential?)
    && (r.phase.Woken? ==> SettledAs(r, s.refreshes, r.phase.ok))
  }

  // ------------------------------------------------------------- termination

  // Steps a caller may still take, with the refresh it may still start.
  function CallerRank(r: Caller): (result: nat) {
    match r.phase
    case Sent => if r.Request? && r.sends == 1 then 6 else 2
    case Waiting(_) => 4
    case Woken(_) => 3
    case Done(_) => 0
  }

  function CallersRank(cs: seq<Caller>): (r: nat) {
    if cs == [] then 0 else CallerRank(cs[0]) + CallersRank(cs[1..])
  }

  function RefreshesRank(rs: seq<Option<bool>>): (r: nat) {
    if rs == [] then 0 else (if rs[0].None? then 1 else 0) + RefreshesRank(rs[1..])
  }

  function Rank(s: State): (r: nat) { CallersRank(s.callers) + RefreshesRank(s.refreshes) }

  predicate Starts(step: Step) { step.StartRequest? || step.TimerFires? }

  lemma {:induction false} CallersRankAt(cs: seq<Caller>, c: nat, r: Caller)
    requires c < |cs|
    ensures CallersRank(cs[c := r]) == CallersRank(cs) - CallerRank(cs[c]) + CallerRank(r)
  {
    if c == 0 {
      assert cs[0 := r][1..] == cs[1..];
    } else {
      assert cs[c := r][1..] == cs[1..][c - 1 := r];
      CallersRankAt(cs[1..], c - 1, r);
    }
  }

  lemma {:induction false} CallersRankMore(cs: seq<Caller>, r: Caller)
    ensures CallersRank(cs + [r]) == CallersRank(cs) + CallerRank(r)
  {
    if cs == [] {
      assert (cs + [r])[1..] == [];
    } else {
      assert (cs + [r])[1..] == cs[1..] + [r];
      CallersRankMore(cs[1..], r);
    }
  }

  lemma {:induction false} RefreshesRankAt(rs: seq<Option<bool>>, p: nat, ok: bool)
    requires p < |rs| && rs[p].None?
    ensures RefreshesRank(rs[p := Some(ok)]) == RefreshesRank(rs) - 1
  {
    if p == 0 {
      assert rs[0 := Some(ok)][1..] == rs[1..];
    } else {
      assert rs[p := Some(ok)][1..] == rs[1..][p - 1 := Some(ok)];
      RefreshesRankAt(rs[1..], p - 1, ok);
    }
  }

  lemma {:induction false} RefreshesRankMore(rs: seq<Option<bool>>)
    ensures RefreshesRank(rs + [None]) == RefreshesRank(rs) + 1
  {
    if rs == [] {
      assert (rs + [None])[1..] == [];
    } else {
      assert (rs + [None])[1..] == rs[1..] + [None];
      RefreshesRankMore(rs[1..]);
    }
  }

  lemma JoinRank(s: State, c: nat)
    requires c < |s.callers|
    ensures Rank(JoinRefresh(s, c)) <= Rank(s) - CallerRank(s.callers[c]) + 5
  {
    RefreshesRankMore(s.refreshes);
    match s.inFlight {
      case Some(p) => CallersRankAt(s.callers, c, JoinRefresh(s, c).callers[c]);
      case None => CallersRankAt(s.callers, c, JoinRefresh(s, c).callers[c]);
    }
  }

  // Every step other than a start brings the end nearer; a start adds at most
  // six steps.
  lemma StepRank(s: State, step: Step)
    requires Valid(s) && Enabled(s, step)
    ensures !Starts(step) ==> Rank(Do(s, step)) < Rank(s)
    ensures Starts(step) ==> Rank(Do(s, step)) <= Rank(s) + 6
  {
    hide CallersRank, RefreshesRank;
    var t := Do(s, step);
    match step {
      case StartRequest(kind) => CallersRankMore(s.callers, Request(kind, 1, Sent, None));
      case TimerFires =>
        CallersRankMore(s.callers, Timer(Sent, None));
        JoinRank(s.(callers := s.callers + [Timer(Sent, None)]), |s.callers|);
      case Reply(c, _) =>
        assert CallerOk(s.callers[c], s.refreshes, s.inFlight);
        JoinRank(s, c);
        CallersRankAt(s.callers, c, t.callers[c]);
      case RefreshReply(p, ok) => RefreshesRankAt(s.refreshes, p, ok);
      case Wake(c) => CallersRankAt(s.callers, c, t.callers[c]);
      case Resume(c) =>
        assert CallerOk(s.callers[c], s.refreshes, s.inFlight);
        CallersRankAt(s.callers, c, t.callers[c]);
    }
  }

  function StartsIn(steps: seq<Step>): (r: nat) {
    if steps == [] then 0 else (if Starts(steps[0]) then 1 else 0) + StartsIn(steps[1..])
  }

  lemma {:induction false} RunLength(s: State, steps: seq<Step>)
    requires Valid(s) && IsRun(s, steps)
    ensures |steps| <= Rank(s) + 7 * StartsIn(steps)
    decreases |steps|
  {
    if steps != [] {
      StepKeepsValid(s, steps[0]);
      StepRank(s, steps[0]);
      RunLength(Do(s, steps[0]), steps[1..]);
    }
  }

  // Nobody is left waiting: while any caller is not done, or the field is
  // set, some step other than a start can be taken.
  lemma SomethingCanHappen(s: State)
    requires Valid(s)
    requires s.inFlight.Some? || exists c :: 0 <= c < |s.callers| && !s.callers[c].phase.Done?
    ensures exists step :: !Starts(step) && Enabled(s, step)
  {
    if s.inFlight.Some? {
      var c :| 0 <= c < |s.callers| && Leads(s.callers[c]);
      CanGoOn(s, c);
    } else {
      var c :| 0 <= c < |s.callers| && !s.callers[c].phase.Done?;
      CanGoOn(s, c);
    }
  }

  lemma CanGoOn(s: State, c: nat)
    requires c < |s.callers| && CallerOk(s.callers[c], s.refreshes, s.inFlight) && !s.callers[c].phase.Done?
    ensures exists step :: !Starts(step) && Enabled(s, step)
  {
    var r := s.callers[c];
    match r.phase {
      case Sent => assert Enabled(s, Reply(c, false));
      case Waiting(_) =>
        if s.refreshes[r.joined.value].None? { assert Enabled(s, RefreshReply(r.joined.value, true)); }
        else { assert Enabled(s, Wake(c)); }
      case Woken(_) => assert Enabled(s, Resume(c));
      case Done(_) =>
    }
  }

  // Main result, termination: a run of n starts has at most 7n steps however
  // they interleave, and when no other step is left every caller is done and
  // no refresh is held.
  lemma EveryRequestEnds(steps: seq<Step>)
    requires IsRun(IDLE, steps)
    ensures |steps| <= 7 * StartsIn(steps)
    ensures var s := After(IDLE, steps);
      (forall step :: Enabled(s, step) ==> Starts(step)) ==>
        s.inFlight.None? && forall c :: 0 <= c < |s.callers| ==> s.callers[c].phase.Done?
  {
    RunLength(IDLE, steps);
    RunKeepsValid(IDLE, steps);
    var s := After(IDLE, steps);
    if s.inFlight.Some? || exists c :: 0 <= c < |s.callers| && !s.callers[c].phase.Done? {
      SomethingCanHappen(s);
    }
  }

  // Whoever waits for a refresh other than p after the step did so before it.
  ghost predicate OnlyJoin(s: State, t: State, p: nat) {
    && t.inFlight == Some(p) && |t.refreshes| == |s.refreshes|
    && forall c :: 0 <= c < |t.callers| && t.callers[c].phase.Waiting? && t.callers[c].joined != Some(p) ==>
        c < |s.callers| && s.callers[c].phase.Waiting? && s.callers[c].joined == t.callers[c].joined
  }

  lemma StepJoins(s: State, step: Step, p: nat)
    requires Valid(s) && Enabled(s, step) && !(step.RefreshReply? && step.p == p)
    requires p < |s.refreshes| && s.refreshes[p].None?
    ensures OnlyJoin(s, Do(s, step), p) && Do(s, step).refreshes[p].None?
  {
    match step {
      case Wake(c) => assert CallerOk(s.callers[c], s.refreshes, s.inFlight);
      case _ =>
    }
  }

  // Main result, single flight: while a refresh is in flight, whatever steps
  // are taken, no other is started, and everyone who begins to wait waits for
  // it.
  lemma {:induction false} OneRefreshForAll(s: State, steps: seq<Step>, p: nat)
    requires Valid(s) && IsRun(s, steps) && p < |s.refreshes| && s.refreshes[p].None?
    requires forall k :: 0 <= k < |steps| ==> !(steps[k].RefreshReply? && steps[k].p == p)
    ensures OnlyJoin(s, After(s, steps), p)
    decreases |steps|
  {
    if steps != [] {
      StepJoins(s, steps[0], p);
      StepKeepsValid(s, steps[0]);
      OneRefreshForAll(Do(s, steps[0]), steps[1..], p);
    }
  }

  // --------------------------------------------------- what each reply leads to

  // The replies caller c was given, in order: whether each was a 401.
  function RepliesTo(steps: seq<Step>, c: nat): (r: seq<bool>) {
    if steps == [] then []
    else if steps[0].Reply? && steps[0].c == c then [steps[0].unauthorized] + RepliesTo(steps[1..], c)
    else RepliesTo(steps[1..], c)
  }

  // Where a request stands, told from its kind, its replies and the refresh it
  // awaited. There is no other way to stand.
  predicate Follows(r: Caller, replies: seq<bool>, refreshes: seq<Option<bool>>)
    requires r.Request?
  {
    if replies == [] then r.sends == 1 && r.phase.Sent?
    else if !replies[0] then |replies| == 1 && r.sends == 1 && r.phase == Done(Answered)
    else
      match r.kind
      case Credential => |replies| == 1 && r.sends == 1 && r.phase == Done(CredentialsRefused)
      case Refresh => |replies| == 1 && r.sends == 1 && r.phase == Done(SignedOut)
      case Plain =>
        && r.joined.Some?
        && if |replies| == 1 then
             if r.sends == 1 then
               r.phase.Waiting? || r.phase.Woken? || (r.phase == Done(SignedOut) && SettledAs(r, refreshes, false))
             else r.sends == 2 && r.phase.Sent? && SettledAs(r, refreshes, true)
           else
             && |replies| == 2 && r.sends == 2 && SettledAs(r, refreshes, true)
             && r.phase == Done(if replies[1] then SignedOut else Answered)
  }

  lemma ReplyFollows(s: State, c: nat, unauthorized: bool, replies: seq<bool>)
    requires Valid(s) && Enabled(s, Reply(c, unauthorized)) && Follows(s.callers[c], replies, s.refreshes)
    ensures var t := Do(s, Reply(c, unauthorized));
      t.callers[c].Request? && Follows(t.callers[c], replies + [unauthorized], t.refreshes)
  {
    assert CallerOk(s.callers[c], s.refreshes, s.inFlight);
    assert (replies + [unauthorized])[0] == if replies == [] then unauthorized else replies[0];
  }

  lemma OtherFollows(s: State, step: Step, c: nat, replies: seq<bool>)
    requires Valid(s) && Enabled(s, step) && c < |s.callers| && s.callers[c].Request?
    requires !(step.Reply? && step.c == c) && Follows(s.callers[c], replies, s.refreshes)
    ensures var t := Do(s, step); t.callers[c].Request? && Follows(t.callers[c], replies, t.refreshes)
  {
    assert CallerOk(s.callers[c], s.refreshes, s.inFlight);
  }

  lemma {:induction false} RunFollows(s: State, steps: seq<Step>, c: nat, replies: seq<bool>)
    requires Valid(s) && IsRun(s, steps)
    requires if c < |s.callers| then s.callers[c].Request? ==> Follows(s.callers[c], replies, s.refreshes) else replies == []
    ensures var t := After(s, steps);
      c < |t.callers| && t.callers[c].Request? ==> Follows(t.callers[c], replies + RepliesTo(steps, c), t.refreshes)
    decreases |steps|
  {
    hide Follows, Valid, Enabled;
    if steps == [] {
      assert replies + [] == replies;
    } else {
      var step, t := steps[0], Do(s, steps[0]);
      StepKeepsValid(s, step);
      StepFollows(s, step, c, replies);
      var more := if step.Reply? && step.c == c then [step.unauthorized] else [];
      RunFollows(t, steps[1..], c, replies + more);
      assert replies + RepliesTo(steps, c) == replies + more + RepliesTo(steps[1..], c);
    }
  }

  lemma StepFollows(s: State, step: Step, c: nat, replies: seq<bool>)
    requires Valid(s) && Enabled(s, step)
    requires if c < |s.callers| then s.callers[c].Request? ==> Follows(s.callers[c], replies, s.refreshes) else replies == []
    ensures var t := Do(s, step); var now := replies + if step.Reply? && step.c == c then [step.unauthorized] else [];
      if c < |t.callers| then t.callers[c].Request? ==> Follows(t.callers[c], now, t.refreshes) else now == []
  {
    if c < |s.callers| && s.callers[c].Request? {
      if step.Reply? && step.c == c {
        ReplyFollows(s, c, step.unauthorized, replies);
      } else {
        OtherFollows(s, step, c, replies);
        assert replies + [] == replies;
      }
    } else {
      NewFollows(s, step, c);
      assert replies + [] == replies;
    }
  }

  lemma NewFollows(s: State, step: Step, c: nat)
    requires Enabled(s, step) && (c < |s.callers| ==> s.callers[c].Timer?)
    ensures !(step.Reply? && step.c == c)
    ensures var t := Do(s, step); c < |t.callers| && t.callers[c].Request? ==> Follows(t.callers[c], [], t.refreshes)
    ensures var t := Do(s, step); c < |s.callers| ==> c < |t.callers| && t.callers[c].Timer?
  {
  }

  // Main result, what is done with an answer: in every interleaving a request
  // stands where its replies say. It is answered only by a last reply that is
  // not a 401, and always by one; a plain request refused once awaits a
  // refresh, is sent again if it worked and signs out if it did not; refused
  // twice it signs out.
  lemma RepliesDecide(steps: seq<Step>, c: nat)
    requires IsRun(IDLE, steps) && c < |After(IDLE, steps).callers| && After(IDLE, steps).callers[c].Request?
    ensures var s := After(IDLE, steps); Follows(s.callers[c], RepliesTo(steps, c), s.refreshes)
  {
    RunFollows(IDLE, steps, c, []);
    assert [] + RepliesTo(steps, c) == RepliesTo(steps, c);
  }

  // So at the end of a run the outcome is that of the last reply, and a plain
  // request was refused once if the refresh failed, or else had a second reply.
  lemma OutcomesAtTheEnd(steps: seq<Step>, c: nat)
    requires IsRun(IDLE, steps) && c < |After(IDLE, steps).callers| && After(IDLE, steps).callers[c].Request?
    requires forall step :: Enabled(After(IDLE, steps), step) ==> Starts(step)
    ensures var s := After(IDLE, steps); var r := s.callers[c]; var replies := RepliesTo(steps, c);
      && replies != []
      && (r.phase == Done(Answered) <==> !replies[|replies| - 1])
      && (r.phase == Done(CredentialsRefused) <==> replies[0] && r.kind.Credential?)
      && (r.kind.Plain? && replies[0] ==> Settled(r, s.refreshes))
      && (r.kind.Plain? && replies[0] ==> |replies| == if SettledAs(r, s.refreshes, true) then 2 else 1)
  {
    hide Follows, SettledAs;
    RepliesDecide(steps, c);
    EveryRequestEnds(steps);
    DoneFollows(After(IDLE, steps).callers[c], RepliesTo(steps, c), After(IDLE, steps).refreshes);
  }

  lemma DoneFollows(r: Caller, replies: seq<bool>, refreshes: seq<Option<bool>>)
    requires r.Request? && r.phase.Done? && Follows(r, replies, refreshes)
    ensures replies != []
    ensures r.phase == Done(Answered) <==> !replies[|replies| - 1]
    ensures r.phase == Done(CredentialsRefused) <==> replies[0] && r.kind.Credential?
    ensures r.kind.Plain? && replies[0] ==> Settled(r, refreshes)
    ensures r.kind.Plain? && replies[0] ==> |replies| == if SettledAs(r, refreshes, true) then 2 else 1
  {
  }

  // The refresh a plain request awaits, refused for the first time: the one in
  // flight, or one it starts and leads.
  lemma FirstRefusalJoins(s: State, c: nat)
    requires Valid(s) && Enabled(s, Reply(c, true)) && s.callers[c].kind.Plain? && s.callers[c].sends == 1
    ensures var t := Do(s, Reply(c, true)); var r := t.callers[c];
      && r.phase.Waiting? && r.joined.Some? && t.inFlight == r.joined
      && (s.inFlight.Some? ==> r.joined == s.inFlight && !r.phase.leader && t.refreshes == s.refreshes)
      && (s.inFlight.None? ==> r.phase.leader && t.refreshes == s.refreshes + [None] && r.joined == Some(|s.refreshes|))
  {
  }

  // --------------------------------------------------------------- the client

  // The client object. refreshInFlight is its own field; callers and refreshes
  // stand for the calls that await and the calls to /auth/refresh, which the
  // run-time keeps. Each method is one piece of the code between two awaits
  // and does the machine's step.
  class ApiClient {
    var callers: seq<Caller>
    var refreshes: seq<Option<bool>>
    var refreshInFlight: Option<nat>

    ghost function View(): (r: State)
      reads this
    {
      State(callers, refreshes, refreshInFlight)
    }

    constructor ()
      ensures View() == IDLE && Valid(View())
    {
      callers := [];
      refreshes := [];
      refreshInFlight := None;
    }

    // refreshAccessToken up to its await.
    method RefreshAccessToken(c: nat)
      requires c < |callers|
      modifies this
      ensures View() == JoinRefresh(old(View()), c)
    {
      if refreshInFlight.Some? {
        callers := callers[c := callers[c].(phase := Waiting(false), joined := refreshInFlight)];
        return;
      }
      var promise := |refreshes|;
      refreshes := refreshes + [None];
      refreshInFlight := Some(promise);
      callers := callers[c := callers[c].(phase := Waiting(true), joined := Some(promise))];
    }

    // A timer wakes up.
    method ProactiveRefresh()
      requires Valid(View())
      modifies this
      ensures View() == Do(old(View()), TimerFires) && Valid(View())
    {
      StepKeepsValid(View(), TimerFires);
      callers := callers + [Timer(Sent, None)];
      RefreshAccessToken(|callers| - 1);
    }

    // request after its fetch.
    method OnReply(c: nat, unauthorized: bool)
      requires Valid(View()) && Enabled(View(), Reply(c, unauthorized))
      modifies this
      ensures View() == Do(old(View()), Reply(c, unauthorized)) && Valid(View())
    {
      StepKeepsValid(View(), Reply(c, unauthorized));
      var r := callers[c];
      if unauthorized && r.kind.Plain? && r.sends == 1 {
        RefreshAccessToken(c);
        return;
      }
      var outcome := if !unauthorized then Answered else if r.kind.Credential? then CredentialsRefused else SignedOut;
      callers := callers[c := r.(phase := Done(outcome))];
    }

    // The await in refreshAccessToken returns; the leader clears the field.
    method OnRefreshed(c: nat)
      requires Valid(View()) && Enabled(View(), Wake(c))
      modifies this
      ensures View() == Do(old(View()), Wake(c)) && Valid(View())
    {
      StepKeepsValid(View(), Wake(c));
      var r := callers[c];
      callers := callers[c := r.(phase := Woken(refreshes[r.joined.value].value))];
      if r.phase.leader {
        refreshInFlight := None;
      }
    }

    // request after refreshAccessToken: send again, or give up.
    method OnResume(c: nat)
      requires Valid(View()) && Enabled(View(), Resume(c))
      modifies this
      ensures View() == Do(old(View()), Resume(c)) && Valid(View())
    {
      StepKeepsValid(View(), Resume(c));
      var r := callers[c];
      if r.Timer? {
        callers := callers[c := Timer(Done(Answered), r.joined)];
      } else if r.phase.ok {
        callers := callers[c := r.(sends := r.sends + 1, phase := Sent)];
      } else {
        callers := callers[c := r.(phase := Done(SignedOut))];
      }
    }
  }
}
