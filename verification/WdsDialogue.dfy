/**
 The bring-up as a dialogue, told without steps: what is asked next, and after
 how many idle ticks, follows from the questions and answers since the
 initiation. Every serialised run keeps to it.
 */
module WdsDialogue {
  import opened Bytes
  import opened Options
  import opened Wds
  import opened WdsSerial

  datatype Exchange = Exchange(request: Request, reply: Reply)

  /** Questions answered since the initiation, oldest first. */
  type Log = seq<Exchange>

  // ---- what a log says ----------------------------------------------------------------------------

  /** The profile last created, or last reported with exactly the IMS mask; 0 for none. */
  function Chosen(log: Log): Byte {
    if log == [] then 0
    else
      match log[|log| - 1]
      case Exchange(CreateProfile, ProfileCreated(Some(p))) => p
      case Exchange(GetProfileSettings(p), ProfileSettings(Some(mask))) =>
        if mask == 0x02 then p else Chosen(log[..|log| - 1])
      case _ => Chosen(log[..|log| - 1])
  }

  /** The multiplexer id of the link last accepted. */
  function LinkOf(log: Log): Option<DWord> {
    if log == [] then None
    else
      match log[|log| - 1].reply
      case LinkAdded(Some(mux)) => Some(mux)
      case _ => LinkOf(log[..|log| - 1])
  }

  function MuxOf(log: Log): DWord {
    match LinkOf(log) case Some(mux) => mux case None => 0
  }

  /** The list under scan, and how many of its profiles have been asked about. */
  function Scanned(log: Log): (seq<Byte>, nat) {
    if log == [] then ([], 0)
    else
      match log[|log| - 1].reply
      case ProfileList(Some(ps)) => (ps, 0)
      case ProfileSettings(_) => var (ps, n) := Scanned(log[..|log| - 1]); (ps, n + 1)
      case _ => ([], 0)
  }

  /** What comes next: a request at once, something after a number of idle ticks, or nothing any more. */
  datatype Ahead = AtOnce(request: Request) | Later(idle: nat, action: TickAction) | Never

  /** In the scan: the next profile, or behind the last one the link or a new profile. */
  function NextInScan(ps: seq<Byte>, n: nat, chosen: Byte): Ahead {
    if n < |ps| then AtOnce(GetProfileSettings(ps[n]))
    else if chosen == 0 then Later(0, Send(CreateProfile))
    else Later(2, Send(AddLink))
  }

  /** The dialogue. */
  function After(log: Log): Ahead {
    if log == [] then Later(0, Send(GetProfileList))
    else
      match log[|log| - 1].reply
      case ProfileList(None) => Later(0, Send(GetProfileList))
      case ProfileList(Some(ps)) =>
        if ps == [] then Later(0, Send(CreateProfile)) else AtOnce(GetProfileSettings(ps[0]))
      case ProfileSettings(_) => NextInScan(Scanned(log).0, Scanned(log).1, Chosen(log))
      case ProfileCreated(None) => Later(0, Send(CreateProfile))
      case ProfileCreated(Some(_)) => Later(2, Send(AddLink))
      case ProfileModified => Never
      case LinkAdded(None) => Never
      case LinkAdded(Some(mux)) => Later(2, Send(BindPort(mux)))
      case Bound(ok) => if ok then Later(1, Send(StartNetwork(Chosen(log)))) else Later(0, Send(BindPort(MuxOf(log))))
      case NetworkStarted(NoOutput) => Later(0, Send(StartNetwork(Chosen(log))))
      case NetworkStarted(CallFailed) => Later(1, Send(BindPort(MuxOf(log))))
      case NetworkStarted(_) => Later(1, Send(GetCurrentSettings))
      case CurrentSettings(netmask, address) =>
        if netmask.Some? && address.Some? then Later(1, NotifyDcm) else Later(0, Send(GetCurrentSettings))
  }

  /** What the next tick does, `idle` ticks after the last answer. */
  function TickOf(log: Log, idle: nat): TickAction {
    match After(log)
    case Later(n, action) => if idle < n then Wait else action
    case _ => Wait
  }

  // ---- runs with their log -------------------------------------------------------------------------

  /** A serialised session with the log of its initiation and the idle ticks since the last answer. */
  datatype Told = Told(now: Serial, log: Log, idle: nat)

  const FIRST := Told(WdsSerial.BEGIN, [], 0)

  function Next(c: Told, e: Event): Told
    requires Enabled(c.now, e)
  {
    var d := WdsSerial.Next(c.now, e);
    match e
    case Initiates(_) => Told(d, [], 0)
    case Ticks => Told(d, c.log, if Tick(c.now.session).1 == Wait then c.idle + 1 else c.idle)
    case Replies(r) => Told(d, c.log + [Exchange(c.now.pending.value, r)], 0)
  }

  /** The run of these events, `None` for a sequence that is not one. */
  function RunOf(es: seq<Event>): Option<Told> {
    if es == [] then Some(FIRST)
    else
      match RunOf(es[..|es| - 1])
      case None => None
      case Some(c) => if Enabled(c.now, es[|es| - 1]) then Some(Next(c, es[|es| - 1])) else None
  }

  /** These are the serialised runs. */
  lemma {:induction false} SameRuns(es: seq<Event>)
    ensures RunOf(es).Some? <==> WdsSerial.After(es).Some?
    ensures RunOf(es).Some? ==> RunOf(es).value.now == WdsSerial.After(es).value
  {
    if es != [] { SameRuns(es[..|es| - 1]); }
  }

  // ---- the session at each point of the dialogue ----------------------------------------------------

  /** The step at which something is done. */
  function StepOf(action: TickAction): Byte {
    match action
    case Send(GetProfileList) => GET_PROFILES
    case Send(CreateProfile) => ADD_MODIFY_PROFILE
    case Send(AddLink) => SETUP_LINK
    case Send(BindPort(_)) => BIND_DATA_PORT
    case Send(StartNetwork(_)) => DO_START_NETWORK
    case Send(_) => GET_SETTINGS
    case _ => FINISHED
  }

  /** The step `idle` ticks after the last answer, with this ahead and nothing pending. */
  predicate StandsAt(s: Session, ahead: Ahead, idle: nat) {
    match ahead
    case AtOnce(_) => false
    case Never => s.step == SETUP_LINK && s.setupLinkDone
    case Later(n, NotifyDcm) => n == 1 && s.step == if idle == 0 then BIND_DATA_PORT_IPV6 else FINISHED
    case Later(n, action) => idle <= n && s.step as int == StepOf(action) as int - (n - idle)
  }

  /** What a log says, in one value. */
  datatype View = View(chosen: Byte, link: Option<DWord>, profiles: seq<Byte>, asked: nat, ahead: Ahead)

  function ViewOf(log: Log): View {
    View(Chosen(log), LinkOf(log), Scanned(log).0, Scanned(log).1, After(log))
  }

  function ViewMux(v: View): DWord {
    match v.link case Some(mux) => mux case None => 0
  }

  /** What one more answer makes of it. */
  function Heard(v: View, x: Exchange): View {
    match x.reply
    case ProfileList(None) => v.(profiles := [], asked := 0, ahead := Later(0, Send(GetProfileList)))
    case ProfileList(Some(ps)) =>
      v.(profiles := ps, asked := 0,
         ahead := if ps == [] then Later(0, Send(CreateProfile)) else AtOnce(GetProfileSettings(ps[0])))
    case ProfileSettings(mask) =>
      var chosen := if x.request.GetProfileSettings? && mask == Some(0x02) then x.request.profile else v.chosen;
      v.(chosen := chosen, asked := v.asked + 1, ahead := NextInScan(v.profiles, v.asked + 1, chosen))
    case ProfileCreated(p) =>
      v.(chosen := if x.request.CreateProfile? && p.Some? then p.value else v.chosen, profiles := [], asked := 0,
         ahead := if p.Some? then Later(2, Send(AddLink)) else Later(0, Send(CreateProfile)))
    case ProfileModified => v.(profiles := [], asked := 0, ahead := Never)
    case LinkAdded(None) => v.(profiles := [], asked := 0, ahead := Never)
    case LinkAdded(Some(mux)) =>
      v.(link := Some(mux), profiles := [], asked := 0, ahead := Later(2, Send(BindPort(mux))))
    case Bound(ok) =>
      v.(profiles := [], asked := 0,
         ahead := if ok then Later(1, Send(StartNetwork(v.chosen))) else Later(0, Send(BindPort(ViewMux(v)))))
    case NetworkStarted(result) =>
      v.(profiles := [], asked := 0,
         ahead := match result
                  case NoOutput => Later(0, Send(StartNetwork(v.chosen)))
                  case CallFailed => Later(1, Send(BindPort(ViewMux(v))))
                  case _ => Later(1, Send(GetCurrentSettings)))
    case CurrentSettings(netmask, address) =>
      v.(profiles := [], asked := 0,
         ahead := if netmask.Some? && address.Some? then Later(1, NotifyDcm) else Later(0, Send(GetCurrentSettings)))
  }

  lemma {:induction false} ViewGrows(log: Log, x: Exchange)
    ensures ViewOf(log + [x]) == Heard(ViewOf(log), x)
  {
    var all := log + [x];
    assert all[..|all| - 1] == log && all[|all| - 1] == x;
  }

  /** With this request pending. */
  predicate Awaits(s: Session, v: View, idle: nat, q: Request) {
    match v.ahead
    case AtOnce(p) => q == p && s.scan == Some(Scan(v.profiles, v.asked)) && v.asked < |v.profiles|
    case Later(n, action) =>
      action == Send(q) && idle == n && s.step == if q.StartNetwork? then WAIT_NET_START else StepOf(action)
    case Never => false
  }

  /** What can be ahead. */
  predicate Sensible(v: View) {
    match v.ahead
    case Later(n, Send(GetProfileList)) => n == 0
    case Later(n, Send(CreateProfile)) => n == 0
    case Later(n, Send(AddLink)) => n == 2
    case Later(n, Send(BindPort(mux))) => n <= 2 && v.link == Some(mux)
    case Later(n, Send(StartNetwork(p))) => n <= 1 && v.link.Some? && p == v.chosen
    case Later(n, Send(GetCurrentSettings)) => n <= 1 && v.link.Some?
    case Later(n, action) => n == 1 && action.NotifyDcm?
    case _ => true
  }

  predicate Agrees(c: Serial, v: View, idle: nat) {
    var s := c.session;
    && Sensible(v) && s.profileId == v.chosen && c.linkMux == v.link && s.muxId == ViewMux(v)
    && (match c.pending
        case Some(q) => Awaits(s, v, idle, q)
        case None => StandsAt(s, v.ahead, idle) && s.scan.None?)
    && (v.ahead.Never? <==> c.linkRefused)
  }

  /** What the next tick does with this ahead. */
  function Due(ahead: Ahead, idle: nat): TickAction {
    match ahead
    case Later(n, action) => if idle < n then Wait else action
    case _ => Wait
  }

  lemma {:induction false} TickAgrees(c: Serial, v: View, idle: nat)
    requires Inv(c) && Agrees(c, v, idle) && Enabled(c, Ticks)
    ensures Tick(c.session).1 == Due(v.ahead, idle)
    ensures Agrees(AfterTick(c), v, if Tick(c.session).1 == Wait then idle + 1 else idle)
  {
  }

  lemma {:induction false} ListAgrees(c: Serial, v: View, idle: nat, r: Reply)
    requires Inv(c) && Agrees(c, v, idle) && Enabled(c, Replies(r)) && (r.ProfileList? || r.ProfileCreated?)
    ensures Agrees(AfterReply(c, r), Heard(v, Exchange(c.pending.value, r)), 0)
  {
  }

  lemma {:induction false} SettingsAgree(c: Serial, v: View, idle: nat, r: Reply)
    requires Inv(c) && Agrees(c, v, idle) && Enabled(c, Replies(r)) && r.ProfileSettings?
    ensures Agrees(AfterReply(c, r), Heard(v, Exchange(c.pending.value, r)), 0)
  {
  }

  lemma {:induction false} LinkAgrees(c: Serial, v: View, idle: nat, r: Reply)
    requires Inv(c) && Agrees(c, v, idle) && Enabled(c, Replies(r)) && (r.LinkAdded? || r.Bound?)
    ensures Agrees(AfterReply(c, r), Heard(v, Exchange(c.pending.value, r)), 0)
  {
  }

  lemma {:induction false} StartAgrees(c: Serial, v: View, idle: nat, r: Reply)
    requires Inv(c) && Agrees(c, v, idle) && Enabled(c, Replies(r)) && (r.NetworkStarted? || r.CurrentSettings?)
    ensures Agrees(AfterReply(c, r), Heard(v, Exchange(c.pending.value, r)), 0)
  {
  }

  lemma {:induction false} ReplyAgrees(c: Serial, v: View, idle: nat, r: Reply)
    requires Inv(c) && Agrees(c, v, idle) && Enabled(c, Replies(r))
    ensures Agrees(AfterReply(c, r), Heard(v, Exchange(c.pending.value, r)), 0)
  {
    match r
    case ProfileList(_) => ListAgrees(c, v, idle, r);
    case ProfileCreated(_) => ListAgrees(c, v, idle, r);
    case ProfileSettings(_) => SettingsAgree(c, v, idle, r);
    case LinkAdded(_) => LinkAgrees(c, v, idle, r);
    case Bound(_) => LinkAgrees(c, v, idle, r);
    case ProfileModified =>
    case _ => StartAgrees(c, v, idle, r);
  }

  lemma {:induction false} InitiateAgrees(c: Serial, slot: DWord)
    requires Inv(c) && Enabled(c, Initiates(slot))
    ensures Agrees(AfterInitiate(c, slot), ViewOf([]), 0)
  {
  }

  predicate Keeps(c: Told) {
    Inv(c.now) && Agrees(c.now, ViewOf(c.log), c.idle)
  }

  lemma {:induction false} KeepsNext(c: Told, e: Event)
    requires Keeps(c) && Enabled(c.now, e)
    ensures Keeps(Next(c, e))
  {
    InvNext(c.now, e);
    match e
    case Initiates(slot) => InitiateAgrees(c.now, slot);
    case Ticks => TickAgrees(c.now, ViewOf(c.log), c.idle);
    case Replies(r) =>
      ReplyAgrees(c.now, ViewOf(c.log), c.idle, r);
      ViewGrows(c.log, Exchange(c.now.pending.value, r));
  }

  lemma {:induction false} RunsKeep(es: seq<Event>)
    requires RunOf(es).Some?
    ensures Keeps(RunOf(es).value)
  {
    if es != [] {
      var front := es[..|es| - 1];
      RunsKeep(front);
      KeepsNext(RunOf(front).value, es[|es| - 1]);
    }
  }

  // ---- main results --------------------------------------------------------------------------------

  /**
   At any time of any serialised run, the log since the initiation says what the
   next tick does, to the tick, and which request is pending: what the dialogue
   has next, with the profile last created or reported, and the multiplexer id
   of the link accepted.
   */
  lemma {:induction false} RunsFollowDialogue(es: seq<Event>)
    requires RunOf(es).Some?
    ensures var c := RunOf(es).value;
            (c.now.pending.None? && c.now.timers > 0 ==> Tick(c.now.session).1 == TickOf(c.log, c.idle)) &&
            (c.now.pending.Some? ==>
               var q := c.now.pending.value;
               After(c.log) == AtOnce(q) || After(c.log) == Later(c.idle, Send(q)))
  {
    RunsKeep(es);
    var c := RunOf(es).value;
    if c.now.pending.None? && c.now.timers > 0 { TickAgrees(c.now, ViewOf(c.log), c.idle); }
  }

  /** Every start request names the profile last created or last reported with exactly the IMS mask. */
  lemma {:induction false} StartsChosenProfile(es: seq<Event>, p: Byte)
    requires RunOf(es).Some? && RunOf(es).value.now.pending == Some(StartNetwork(p))
    ensures p == Chosen(RunOf(es).value.log)
  {
    RunsKeep(es);
  }

  /** The request the dialogue has next. */
  predicate AskedNext(log: Log, q: Request) {
    match After(log)
    case AtOnce(p) => q == p
    case Later(_, action) => action == Send(q)
    case Never => false
  }

  /** Every question in the log is the one the dialogue had next. */
  predicate Scripted(log: Log) {
    forall i :: 0 <= i < |log| ==> AskedNext(log[..i], log[i].request)
  }

  lemma {:induction false} ScriptGrows(log: Log, x: Exchange)
    requires Scripted(log) && AskedNext(log, x.request)
    ensures Scripted(log + [x])
  {
    var all := log + [x];
    forall i | 0 <= i < |all| ensures AskedNext(all[..i], all[i].request) {
      assert i < |log| ==> all[..i] == log[..i] && all[i] == log[i];
      assert all[..|log|] == log;
    }
  }

  lemma {:induction false} LogsAreScripted(es: seq<Event>)
    requires RunOf(es).Some?
    ensures Scripted(RunOf(es).value.log)
  {
    if es != [] {
      var front, e := es[..|es| - 1], es[|es| - 1];
      LogsAreScripted(front);
      RunsFollowDialogue(front);
      var c := RunOf(front).value;
      if e.Replies? { ScriptGrows(c.log, Exchange(c.now.pending.value, e.reply)); }
    }
  }

  // ---- counting ------------------------------------------------------------------------------------

  predicate AcceptedBind(x: Exchange) { x.reply == Bound(true) }
  predicate EmptyStart(x: Exchange) { x.reply == NetworkStarted(NoOutput) }

  function Count(log: Log, p: Exchange -> bool): nat {
    if log == [] then 0 else Count(log[..|log| - 1], p) + if p(log[|log| - 1]) then 1 else 0
  }

  /** A start request is what comes next. */
  predicate StartDue(log: Log) {
    log != [] && (AcceptedBind(log[|log| - 1]) || EmptyStart(log[|log| - 1]))
  }

  /** Replies are of the kind their requests ask for. */
  predicate Matched(log: Log) {
    forall i :: 0 <= i < |log| ==> Answers(log[i].request, log[i].reply)
  }

  lemma {:induction false} StartComesAfter(log: Log, q: Request)
    requires AskedNext(log, q) && (log != [] ==> Answers(log[|log| - 1].request, log[|log| - 1].reply))
    ensures q.StartNetwork? <==> StartDue(log)
  {
  }

  /**
   Since an initiation, accepted binds and start replies without output, taken
   together, are as many as start requests answered, but for the one start that
   is due next: after no output the start is repeated at once, and after a
   CALL_FAILED exactly one bind is accepted before the next start.
   */
  lemma {:induction false} BindsAndStarts(log: Log)
    requires Scripted(log) && Matched(log)
    ensures Count(log, AcceptedBind) + Count(log, EmptyStart) ==
            Count(log, (x: Exchange) => x.request.StartNetwork?) + if StartDue(log) then 1 else 0
  {
    if log != [] {
      var front, x := log[..|log| - 1], log[|log| - 1];
      assert forall i :: 0 <= i < |front| ==> front[i] == log[i] && front[..i] == log[..i];
      BindsAndStarts(front);
      assert AskedNext(log[..|log| - 1], log[|log| - 1].request);
      assert front != [] ==> front[|front| - 1] == log[|front| - 1];
      StartComesAfter(front, x.request);
    }
  }

  lemma {:induction false} LogsAreMatched(es: seq<Event>)
    requires RunOf(es).Some?
    ensures Matched(RunOf(es).value.log)
  {
    if es != [] { LogsAreMatched(es[..|es| - 1]); }
  }

  /** The counts of any serialised run. */
  lemma {:induction false} RunsBalance(es: seq<Event>)
    requires RunOf(es).Some?
    ensures var log := RunOf(es).value.log;
            Count(log, AcceptedBind) + Count(log, EmptyStart) ==
            Count(log, (x: Exchange) => x.request.StartNetwork?) + if StartDue(log) then 1 else 0
  {
    LogsAreScripted(es);
    LogsAreMatched(es);
    BindsAndStarts(RunOf(es).value.log);
  }
}
