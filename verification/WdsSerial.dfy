/**
 Serialised runs of one bring-up: ticks and initiations happen only while no
 reply is outstanding, and a whole profile scan counts as one outstanding reply.
 */
module WdsSerial {
  import opened Bytes
  import opened Options
  import Inet
  import opened Wds

  /**
   The session with its outstanding request and live timers, and what has
   happened to it so far: the multiplexer id the link of this session was
   accepted with, whether the link was refused, whether a bind was accepted
   since the last CALL_FAILED, the last start-network reply, the address stored
   since then, the address buffer the session began with, and the notifications
   given.
   */
  datatype Serial = Serial(
    session: Session,
    pending: Option<Request>,
    timers: nat,
    linkMux: Option<DWord>,
    linkRefused: bool,
    bound: bool,
    lastStart: Option<StartResult>,
    stored: Option<DWord>,
    ipBefore: seq<Byte>,
    notices: nat)

  const BEGIN := Serial(FRESH, None, 0, None, false, false, None, None, FRESH.ip, 0)

  datatype Event = Initiates(slot: DWord) | Ticks | Replies(reply: Reply)

  predicate Answers(q: Request, r: Reply) {
    match q
    case GetProfileList => r.ProfileList?
    case GetProfileSettings(_) => r.ProfileSettings?
    case CreateProfile => r.ProfileCreated?
    case ModifyProfile => r.ProfileModified?
    case AddLink => r.LinkAdded?
    case BindPort(_) => r.Bound?
    case StartNetwork(_) => r.NetworkStarted?
    case GetCurrentSettings => r.CurrentSettings?
  }

  predicate Enabled(c: Serial, e: Event) {
    match e
    case Initiates(_) => c.pending.None?
    case Ticks => c.pending.None? && c.timers > 0
    case Replies(r) => c.pending.Some? && Answers(c.pending.value, r) && Expected(c.session, r)
  }

  function AfterInitiate(c: Serial, slot: DWord): Serial {
    c.(session := Initiate(c.session, slot), timers := c.timers + 1, linkMux := None, linkRefused := false,
       bound := false, lastStart := None, stored := None, ipBefore := c.session.ip)
  }

  function AfterTick(c: Serial): Serial
    requires c.timers > 0
  {
    var (s, action) := Tick(c.session);
    match action
    case Wait => c.(session := s)
    case Send(q) => c.(session := s, pending := Some(q))
    case NotifyDcm => c.(session := s, timers := c.timers - 1, notices := c.notices + 1)
    case GiveUp => c.(session := s, timers := c.timers - 1)
  }

  function AfterReply(c: Serial, r: Reply): Serial
    requires Expected(c.session, r)
  {
    var (s, next) := OnReply(c.session, r);
    var d := c.(session := s, pending := next);
    match r
    case LinkAdded(None) => d.(linkRefused := true)
    case LinkAdded(Some(mux)) => d.(linkMux := Some(mux))
    case Bound(ok) => d.(bound := c.bound || ok)
    case NetworkStarted(result) =>
      d.(lastStart := Some(result), stored := None, bound := c.bound && !result.CallFailed?)
    case CurrentSettings(Some(_), Some(a)) => d.(stored := Some(a))
    case _ => d
  }

  function Next(c: Serial, e: Event): Serial
    requires Enabled(c, e)
  {
    match e
    case Initiates(slot) => AfterInitiate(c, slot)
    case Ticks => AfterTick(c)
    case Replies(r) => AfterReply(c, r)
  }

  // ---- safety ---------------------------------------------------------------------------

  predicate ScanOk(s: Session) {
    && s.scan.Some? && s.scan.value.i < |s.scan.value.profiles|
    && (s.step == GET_PROFILES || s.step == PROFILE_READY)
    && (s.profileId != 0 ==> s.step == PROFILE_READY)
  }

  /** Which request can be outstanding at which step. */
  predicate PendingOk(c: Serial) {
    var s := c.session;
    match c.pending
    case None => s.scan.None? && s.step != WAIT_NET_START
    case Some(GetProfileSettings(p)) => ScanOk(s) && p == s.scan.value.profiles[s.scan.value.i]
    case Some(q) =>
      s.scan.None? &&
      match q
      case GetProfileList => s.step == GET_PROFILES
      case CreateProfile => s.step == ADD_MODIFY_PROFILE
      case AddLink => s.step == SETUP_LINK
      case BindPort(mux) => s.step == BIND_DATA_PORT && mux == s.muxId
      case StartNetwork(profile) => s.step == WAIT_NET_START && profile == s.profileId
      case GetCurrentSettings => s.step == GET_SETTINGS
      case _ => false
  }

  predicate LinkOk(c: Serial) {
    var s := c.session;
    && (c.linkMux.Some? <==> s.step >= LINK_BRINGUP)
    && s.muxId == (match c.linkMux case Some(mux) => mux case None => 0)
    && (c.linkRefused ==> s.step == SETUP_LINK && c.pending.None?)
    && (s.step < SETUP_LINK ==> !s.setupLinkDone)
    && (s.step == SETUP_LINK ==> (s.setupLinkDone <==> c.linkRefused || c.pending == Some(AddLink)))
  }

  /** The packet handle a start-network reply leaves a session with. */
  function HandleGiven(start: Option<StartResult>): DWord {
    match start
    case Some(Started(Some(h))) => h
    case _ => NO_HANDLE
  }

  /** The network of this session is up: the last start-network request succeeded. */
  predicate NetworkUp(c: Serial) {
    c.lastStart.Some? && c.lastStart.value.Started?
  }

  /** The last start-network request failed with an error other than CALL_FAILED. */
  predicate StartFailed(c: Serial) {
    c.lastStart == Some(OtherError)
  }

  /** Replies are due to live timers only, and the packet handle is that of the last start-network reply. */
  predicate HandleOk(c: Serial) {
    && (c.pending.Some? ==> c.timers > 0)
    && (c.session.step > 0 ==> c.timers + c.notices > 0)
    && (c.timers + c.notices > 0 ==> c.session.handle == HandleGiven(c.lastStart))
    && (c.session.step >= REGISTER_INDICATIONS <==> NetworkUp(c) || StartFailed(c))
  }

  predicate AddressOk(c: Serial) {
    && |c.ipBefore| == Inet.IP_BUFFER_SIZE
    && (c.stored.Some? <==> c.session.step == BIND_DATA_PORT_IPV6 || c.session.step == FINISHED)
    && c.session.ip == match c.stored case Some(a) => StoreAddress(c.ipBefore, a) case None => c.ipBefore
  }

  /** The invariant of serialised runs. */
  predicate Inv(c: Serial) {
    && (c.session.step <= BIND_DATA_PORT_IPV6 || c.session.step == FINISHED)
    && (c.session.step <= ADD_MODIFY_PROFILE ==> c.session.profileId == 0)
    && (c.session.step >= SELECT_IP_FAMILY ==> c.bound)
    && PendingOk(c) && LinkOk(c) && HandleOk(c) && AddressOk(c)
  }

  lemma {:induction false} InvTick(c: Serial)
    requires Inv(c) && Enabled(c, Ticks)
    ensures Inv(AfterTick(c))
  {
  }

  lemma {:induction false} InvScanReply(c: Serial, r: Reply)
    requires Inv(c) && Enabled(c, Replies(r)) && (r.ProfileList? || r.ProfileSettings?)
    ensures Inv(AfterReply(c, r))
  {
  }

  lemma {:induction false} InvReply(c: Serial, r: Reply)
    requires Inv(c) && Enabled(c, Replies(r))
    ensures Inv(AfterReply(c, r))
  {
    if r.ProfileList? || r.ProfileSettings? { InvScanReply(c, r); }
  }

  lemma {:induction false} InvNext(c: Serial, e: Event)
    requires Inv(c) && Enabled(c, e)
    ensures Inv(Next(c, e))
  {
    match e
    case Initiates(_) =>
    case Ticks => InvTick(c);
    case Replies(r) => InvReply(c, r);
  }

  /** The state a serialised run ends in, `None` for a sequence that is not one. */
  function After(es: seq<Event>): Option<Serial> {
    if es == [] then Some(BEGIN)
    else
      match After(es[..|es| - 1])
      case None => None
      case Some(c) => if Enabled(c, es[|es| - 1]) then Some(Next(c, es[|es| - 1])) else None
  }

  lemma {:induction false} RunsKeepInv(es: seq<Event>)
    requires After(es).Some?
    ensures Inv(After(es).value)
  {
    if es != [] {
      var front := es[..|es| - 1];
      RunsKeepInv(front);
      InvNext(After(front).value, es[|es| - 1]);
    }
  }

  /** What a reader of wds.c may rely on at any time of any serialised run. */
  predicate Safe(c: Serial) {
    var s := c.session;
    && (s.step <= 13 || s.step == 99)
    && (s.step == ADD_MODIFY_PROFILE ==> s.profileId == 0)
    && c.pending != Some(ModifyProfile)
    && (s.step >= 5 ==> c.linkMux.Some?)
    && (c.pending.Some? && s.step <= 10 ==> s.handle == NO_HANDLE)
    && (s.step >= 11 ==> (NetworkUp(c) <==> c.lastStart != Some(OtherError)))
    && (s.step >= 11 && StartFailed(c) ==> s.handle == NO_HANDLE)
    && (match c.pending
        case Some(BindPort(mux)) => c.linkMux == Some(mux)
        case Some(StartNetwork(profile)) => profile == s.profileId
        case _ => true)
    && (s.step >= 8 ==> c.bound)
    && (s.step == 99 ==> c.stored.Some? && |c.ipBefore| == Inet.IP_BUFFER_SIZE &&
                         s.ip == StoreAddress(c.ipBefore, c.stored.value))
  }

  lemma {:induction false} SafeAlways(es: seq<Event>)
    requires After(es).Some?
    ensures Safe(After(es).value)
  {
    RunsKeepInv(es);
  }

  /** No serialised run gets stuck: some event is always possible while a timer lives or a reply is due. */
  lemma {:induction false} AlwaysAnswerable(c: Serial, r: Reply)
    requires Inv(c) && c.pending.Some? && Answers(c.pending.value, r)
    ensures Enabled(c, Replies(r))
  {
  }

  // ---- progress ---------------------------------------------------------------------------

  /** Any way of answering: the reply may depend on the time and on everything so far. */
  type Modem = (nat, Serial) -> Reply

  /** What happens next when nothing is initiated: the reply that is due, else a tick. */
  function Due(c: Serial, modem: Modem, n: nat): Event {
    if c.pending.Some? then Replies(modem(n, c)) else Ticks
  }

  /** An event that cannot happen leaves things as they are. */
  function Onward(c: Serial, e: Event): Serial {
    if Enabled(c, e) then Next(c, e) else c
  }

  /** The session after `n` events. */
  function Drive(c: Serial, modem: Modem, n: nat): Serial {
    if n == 0 then c
    else
      var d := Drive(c, modem, n - 1);
      Onward(d, Due(d, modem, n - 1))
  }

  ghost predicate Faithful(c: Serial, modem: Modem) {
    forall n: nat :: var d := Drive(c, modem, n); d.pending.Some? ==> Answers(d.pending.value, modem(n, d))
  }

  /** Replies that do not move the session on. */
  predicate Fails(e: Event) {
    && e.Replies?
    && match e.reply
       case ProfileList(ps) => ps.None?
       case ProfileCreated(p) => p.None?
       case LinkAdded(m) => m.None?
       case Bound(ok) => !ok
       case NetworkStarted(result) => result.NoOutput? || result.CallFailed?
       case CurrentSettings(m, a) => m.None? || a.None?
       case _ => false
  }

  function Failures(c: Serial, modem: Modem, n: nat): nat {
    if n == 0 then 0
    else
      var d := Drive(c, modem, n - 1);
      Failures(c, modem, n - 1) + if Fails(Due(d, modem, n - 1)) then 1 else 0
  }

  function Phase(c: Serial): nat {
    if c.session.scan.Some? then 1
    else if c.session.step == 0 then 0
    else if c.session.step == FINISHED then 15
    else c.session.step as nat + 1
  }

  function ProfilesLeft(c: Serial): nat {
    match c.session.scan
    case Some(Scan(ps, i)) => if i <= |ps| then |ps| - i else 0
    case None => 0
  }

  function Idle(c: Serial): nat { if c.pending.None? then 1 else 0 }

  /** Failures left, phases to go, profiles still to scan, and whether a reply is due. */
  datatype Rank = Rank(failures: nat, phases: nat, profiles: nat, idle: nat)

  function RankOf(c: Serial, failures: nat): Rank {
    Rank(failures, if Phase(c) <= 15 then 15 - Phase(c) else 0, ProfilesLeft(c), Idle(c))
  }

  predicate Below(q: Rank, r: Rank) {
    || q.failures < r.failures
    || (q.failures == r.failures && q.phases < r.phases)
    || (q.failures == r.failures && q.phases == r.phases && q.profiles < r.profiles)
    || (q.failures == r.failures && q.phases == r.phases && q.profiles == r.profiles && q.idle < r.idle)
  }

  predicate Nearer(d: Serial, c: Serial) {
    Below(RankOf(d, 0), RankOf(c, 0))
  }

  /** Every event that is not a failed reply brings the session nearer to its end, or ends it. */
  lemma {:induction false} NearerTick(c: Serial)
    requires Inv(c) && Enabled(c, Ticks) && !c.linkRefused && c.session.step != FINISHED
    ensures Nearer(AfterTick(c), c)
    ensures AfterTick(c).timers == c.timers && AfterTick(c).notices == c.notices
  {
  }

  lemma {:induction false} NearerReply(c: Serial, r: Reply)
    requires Inv(c) && Enabled(c, Replies(r)) && !Fails(Replies(r))
    ensures Nearer(AfterReply(c, r), c)
  {
  }

  /** What an event other than an initiation keeps. */
  predicate Keeps(c: Serial, d: Serial) {
    && d.notices + d.timers == c.notices + c.timers && c.notices <= d.notices
    && (c.linkRefused ==> d.linkRefused && d.notices == c.notices)
    && (c.notices < d.notices ==> Over(d))
    && (Over(c) ==> Over(d))
    && (c.session.step >= REGISTER_INDICATIONS ==>
          d.session.step >= REGISTER_INDICATIONS && d.lastStart == c.lastStart)
  }

  /** The session has reached FINISHED with nothing outstanding. */
  predicate Over(c: Serial) {
    c.session.step == FINISHED && c.pending.None?
  }

  lemma {:induction false} OnwardKeeps(c: Serial, e: Event)
    requires Inv(c) && !e.Initiates?
    ensures Inv(Onward(c, e)) && Keeps(c, Onward(c, e))
  {
    if Enabled(c, e) { InvNext(c, e); }
  }

  lemma {:induction false} KeepsTransitive(c: Serial, d: Serial, e: Serial)
    requires Keeps(c, d) && Keeps(d, e)
    ensures Keeps(c, e)
  {
  }

  lemma {:induction false} DriveStep(c: Serial, modem: Modem, n: nat)
    requires Inv(Drive(c, modem, n))
    ensures Inv(Drive(c, modem, n + 1)) && Keeps(Drive(c, modem, n), Drive(c, modem, n + 1))
  {
    var d := Drive(c, modem, n);
    OnwardKeeps(d, Due(d, modem, n));
  }

  /** What every step of a run keeps, the whole run keeps. */
  lemma {:induction false} KeptAlong(inv: nat -> bool, rel: (nat, nat) -> bool, m: nat, n: nat)
    requires inv(0) && m <= n
    requires forall k: nat :: inv(k) ==> inv(k + 1) && rel(k, k + 1)
    requires forall k: nat :: rel(k, k)
    requires forall i: nat, j: nat, k: nat :: rel(i, j) && rel(j, k) ==> rel(i, k)
    ensures inv(n) && rel(m, n)
    decreases n
  {
    if m < n {
      var k: nat := n - 1;
      KeptAlong(inv, rel, m, k);
      assert rel(k, k + 1);
    } else if n > 0 {
      var k: nat := n - 1;
      KeptAlong(inv, rel, k, k);
      assert inv(k + 1) && rel(n, n);
    }
  }

  ghost predicate StepKeeps(run: nat -> Serial, k: nat) {
    Inv(run(k)) ==> Inv(run(k + 1)) && Keeps(run(k), run(k + 1))
  }

  lemma {:induction false} RunKeeps(run: nat -> Serial, m: nat, n: nat)
    requires Inv(run(0)) && m <= n && forall k: nat :: StepKeeps(run, k)
    ensures Inv(run(n)) && Keeps(run(m), run(n))
  {
    var inv := (k: nat) => Inv(run(k));
    var rel := (i: nat, j: nat) => Keeps(run(i), run(j));
    forall k: nat | inv(k) ensures inv(k + 1) && rel(k, k + 1) {
      assert StepKeeps(run, k);
    }
    forall i: nat, j: nat, k: nat | rel(i, j) && rel(j, k) ensures rel(i, k) {
      KeepsTransitive(run(i), run(j), run(k));
    }
    forall k: nat ensures rel(k, k) {
      assert Keeps(run(k), run(k));
    }
    assert inv(0);
    KeptAlong(inv, rel, m, n);
    assert inv(n) && rel(m, n);
  }

  lemma {:induction false} DriveKeeps(c: Serial, modem: Modem, m: nat, n: nat)
    requires Inv(c) && m <= n
    ensures Inv(Drive(c, modem, n)) && Keeps(Drive(c, modem, m), Drive(c, modem, n))
  {
    var run := (k: nat) => Drive(c, modem, k);
    forall k: nat ensures StepKeeps(run, k) {
      if Inv(run(k)) { DriveStep(c, modem, k); }
    }
    assert run(0) == c;
    RunKeeps(run, m, n);
    assert run(m) == Drive(c, modem, m) && run(n) == Drive(c, modem, n);
  }

  /** One event at least is possible, and unless it is a failed reply it brings the session nearer. */
  lemma {:induction false} DueAdvances(c: Serial, modem: Modem, n: nat)
    requires Inv(c) && c.timers > 0 && !c.linkRefused
    requires c.pending.Some? ==> Answers(c.pending.value, modem(n, c))
    ensures var e := Due(c, modem, n);
            var d := Onward(c, e);
            Fails(e) || d.notices > c.notices || Nearer(d, c)
  {
    if c.pending.Some? {
      AlwaysAnswerable(c, modem(n, c));
      if !Fails(Replies(modem(n, c))) { NearerReply(c, modem(n, c)); }
    } else if c.session.step != FINISHED {
      NearerTick(c);
    }
  }

  /** A rank that falls until something happens makes it happen. */
  lemma {:induction false} Descends(rank: nat -> Rank, happens: nat -> bool, n: nat) returns (m: nat)
    requires forall k: nat :: happens(k) || Below(rank(k + 1), rank(k))
    ensures happens(m)
    decreases rank(n).failures, rank(n).phases, rank(n).profiles, rank(n).idle
  {
    if happens(n) { return n; }
    m := Descends(rank, happens, n + 1);
  }

  function RankAt(c: Serial, modem: Modem, budget: nat, n: nat): Rank {
    var spent := Failures(c, modem, n);
    RankOf(Drive(c, modem, n), if spent <= budget then budget - spent else 0)
  }

  /** Each event spends a failure, brings the session nearer, or is followed by its notification. */
  lemma {:induction false} RankFalls(c: Serial, modem: Modem, budget: nat, n: nat)
    requires Inv(c) && c.timers > 0 && Faithful(c, modem)
    requires Failures(c, modem, n + 1) <= budget
    requires !Drive(c, modem, n).linkRefused
    ensures || Drive(c, modem, n + 1).notices > c.notices
            || Below(RankAt(c, modem, budget, n + 1), RankAt(c, modem, budget, n))
  {
    DriveKeeps(c, modem, 0, n);
    DriveStep(c, modem, n);
    var d := Drive(c, modem, n);
    if d.notices == c.notices { DueAdvances(d, modem, n); }
  }

  lemma {:induction false} RankAlwaysFalls(c: Serial, modem: Modem, budget: nat,
                                           rank: nat -> Rank, happens: nat -> bool)
    requires Inv(c) && c.timers > 0 && Faithful(c, modem)
    requires forall k: nat :: Failures(c, modem, k) <= budget
    requires forall k: nat :: !Drive(c, modem, k).linkRefused
    requires forall k: nat :: rank(k) == RankAt(c, modem, budget, k)
    requires forall k: nat :: happens(k) == (Drive(c, modem, k + 1).notices > c.notices)
    ensures forall k: nat :: happens(k) || Below(rank(k + 1), rank(k))
  {
    forall k: nat ensures happens(k) || Below(rank(k + 1), rank(k)) {
      assert rank(k + 1) == RankAt(c, modem, budget, k + 1);
      RankFalls(c, modem, budget, k);
    }
  }

  /**
   Bounded progress: a modem that answers, refuses the link never and fails at
   most `budget` times brings the session to FINISHED and to its notification,
   whatever the order of failures and whatever the lengths of the lists scanned.
   */
  lemma {:induction false} Reaches(c: Serial, modem: Modem, budget: nat)
    requires Inv(c) && c.timers > 0 && Faithful(c, modem)
    requires forall k: nat :: Failures(c, modem, k) <= budget
    requires forall k: nat :: !Drive(c, modem, k).linkRefused
    ensures exists n: nat :: Drive(c, modem, n).notices > c.notices
  {
    var rank := (n: nat) => RankAt(c, modem, budget, n);
    var happens := (n: nat) => Drive(c, modem, n + 1).notices > c.notices;
    RankAlwaysFalls(c, modem, budget, rank, happens);
    var m := Descends(rank, happens, 0);
    assert happens(m);
  }

  /** A refused link is never asked for again: the session never notifies. */
  lemma {:induction false} RefusedNeverNotifies(c: Serial, modem: Modem, n: nat, m: nat)
    requires Inv(c) && Drive(c, modem, n).linkRefused
    ensures Drive(c, modem, m).notices == c.notices
  {
    DriveKeeps(c, modem, 0, m);
    DriveKeeps(c, modem, 0, n);
    if m <= n { DriveKeeps(c, modem, m, n); } else { DriveKeeps(c, modem, n, m); }
  }

  ghost predicate Finishes(c: Serial, modem: Modem) {
    exists n: nat :: Drive(c, modem, n).notices > c.notices
  }

  ghost predicate LinkRefused(c: Serial, modem: Modem) {
    exists n: nat :: Drive(c, modem, n).linkRefused
  }

  lemma {:induction false} RefusedNeverFinishes(c: Serial, modem: Modem)
    requires Inv(c) && LinkRefused(c, modem)
    ensures !Finishes(c, modem)
  {
    var n: nat :| Drive(c, modem, n).linkRefused;
    forall m: nat ensures Drive(c, modem, m).notices <= c.notices {
      RefusedNeverNotifies(c, modem, n, m);
    }
  }

  /**
   At any point of any serialised run with a timer alive, and under any modem
   that answers and fails finitely often: the session notifies exactly when its
   add-link request is not refused.
   */
  lemma {:induction false} FinishesIffLinkNotRefused(es: seq<Event>, modem: Modem, budget: nat)
    requires After(es).Some? && After(es).value.timers > 0
    requires Faithful(After(es).value, modem)
    requires forall k: nat :: Failures(After(es).value, modem, k) <= budget
    ensures Finishes(After(es).value, modem) <==> !LinkRefused(After(es).value, modem)
  {
    RunsKeepInv(es);
    FinishesFrom(After(es).value, modem, budget);
  }

  lemma {:induction false} FinishesFrom(c: Serial, modem: Modem, budget: nat)
    requires Inv(c) && c.timers > 0 && Faithful(c, modem)
    requires forall k: nat :: Failures(c, modem, k) <= budget
    ensures Finishes(c, modem) <==> !LinkRefused(c, modem)
  {
    if LinkRefused(c, modem) {
      RefusedNeverFinishes(c, modem);
    } else {
      Reaches(c, modem, budget);
    }
  }

  // ---- notified, but is the network up? ---------------------------------------------------------

  ghost predicate FinishesUp(c: Serial, modem: Modem) {
    exists n: nat :: Drive(c, modem, n).notices > c.notices && NetworkUp(Drive(c, modem, n))
  }

  ghost predicate StartErrs(c: Serial, modem: Modem) {
    exists n: nat :: StartFailed(Drive(c, modem, n))
  }

  /** Past the start the last reply to it stays what it is, and a notification comes past the start only. */
  lemma {:induction false} StartSettled(c: Serial, modem: Modem, m: nat, n: nat)
    requires Inv(c)
    requires StartFailed(Drive(c, modem, m)) && Drive(c, modem, n).notices > c.notices
    ensures StartFailed(Drive(c, modem, n))
  {
    DriveKeeps(c, modem, 0, m);
    DriveKeeps(c, modem, 0, n);
    if m <= n { DriveKeeps(c, modem, m, n); } else { DriveKeeps(c, modem, n, m); }
  }

  /**
   Under the same modems, the session notifies with its network up exactly when
   neither the link is refused nor a start request is answered with an error
   other than CALL_FAILED. After such an error the code goes on to step 11 as if
   the network had started, and notifies all the same.
   */
  lemma {:induction false} FinishesUpIff(es: seq<Event>, modem: Modem, budget: nat)
    requires After(es).Some? && After(es).value.timers > 0
    requires Faithful(After(es).value, modem)
    requires forall k: nat :: Failures(After(es).value, modem, k) <= budget
    ensures var c := After(es).value;
            FinishesUp(c, modem) <==> !LinkRefused(c, modem) && !StartErrs(c, modem)
  {
    var c := After(es).value;
    FinishesIffLinkNotRefused(es, modem, budget);
    RunsKeepInv(es);
    if FinishesUp(c, modem) {
      var n: nat :| Drive(c, modem, n).notices > c.notices && NetworkUp(Drive(c, modem, n));
      if m: nat :| StartFailed(Drive(c, modem, m)) {
        StartSettled(c, modem, m, n);
        assert false;
      }
    }
    if Finishes(c, modem) && !StartErrs(c, modem) {
      var n: nat :| Drive(c, modem, n).notices > c.notices;
      DriveKeeps(c, modem, 0, n);
      assert !StartFailed(Drive(c, modem, n));
    }
  }

  // ---- a modem that never fails ------------------------------------------------------------------

  /** Offers no profiles, accepts everything else, and answers the start request as told. */
  function Willing(q: Request, start: StartResult, address: DWord): Reply {
    match q
    case GetProfileList => ProfileList(Some([]))
    case GetProfileSettings(_) => ProfileSettings(None)
    case CreateProfile => ProfileCreated(Some(1))
    case ModifyProfile => ProfileModified
    case AddLink => LinkAdded(Some(1))
    case BindPort(_) => Bound(true)
    case StartNetwork(_) => NetworkStarted(start)
    case GetCurrentSettings => CurrentSettings(Some(0), Some(address))
  }

  function WillingModem(start: StartResult, address: DWord): Modem {
    (n: nat, c: Serial) => if c.pending.Some? then Willing(c.pending.value, start, address) else ProfileModified
  }

  /** What driving with it keeps. */
  predicate GoesWell(c: Serial, start: StartResult, address: DWord) {
    && !c.linkRefused
    && (c.lastStart.Some? ==> c.lastStart.value == start)
    && (c.stored.Some? ==> c.stored.value == address)
  }

  lemma {:induction false} GoesWellOn(c: Serial, modem: Modem, start: StartResult, address: DWord, n: nat)
    requires modem == WillingModem(start, address) && !start.NoOutput? && !start.CallFailed?
    requires GoesWell(c, start, address)
    ensures !Fails(Due(c, modem, n)) && GoesWell(Onward(c, Due(c, modem, n)), start, address)
  {
  }

  lemma {:induction false} GoesWellAlong(c: Serial, modem: Modem, start: StartResult, address: DWord, n: nat)
    requires modem == WillingModem(start, address) && !start.NoOutput? && !start.CallFailed?
    requires GoesWell(c, start, address)
    ensures Failures(c, modem, n) == 0 && GoesWell(Drive(c, modem, n), start, address)
  {
    if n > 0 {
      GoesWellAlong(c, modem, start, address, n - 1);
      GoesWellOn(Drive(c, modem, n - 1), modem, start, address, n - 1);
    }
  }

  lemma {:induction false} WillingAnswers(c: Serial, modem: Modem, start: StartResult, address: DWord)
    requires modem == WillingModem(start, address)
    ensures Faithful(c, modem)
  {
    forall n: nat | Drive(c, modem, n).pending.Some?
      ensures Answers(Drive(c, modem, n).pending.value, modem(n, Drive(c, modem, n)))
    {
      WillingAnswer(Drive(c, modem, n).pending.value, start, address);
    }
  }

  lemma {:induction false} WillingAnswer(q: Request, start: StartResult, address: DWord)
    ensures Answers(q, Willing(q, start, address))
  {
  }

  lemma {:induction false} NeverFails(c: Serial, modem: Modem, start: StartResult, address: DWord)
    requires modem == WillingModem(start, address) && !start.NoOutput? && !start.CallFailed?
    requires GoesWell(c, start, address)
    ensures !LinkRefused(c, modem)
    ensures forall k: nat :: Failures(c, modem, k) <= 0
  {
    forall k: nat ensures Failures(c, modem, k) <= 0 && !Drive(c, modem, k).linkRefused {
      GoesWellAlong(c, modem, start, address, k);
    }
  }
}
