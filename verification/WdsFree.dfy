/** Free runs of one bring-up: initiations, ticks and replies in any order, and replies nobody asked for. */
module WdsFree {
  import opened Bytes
  import opened Options
  import opened Wds

  datatype Event = Initiates(slot: DWord) | Ticks | Replies(reply: Reply)

  /** The session, its live timers, and counts of what has happened. */
  datatype Free = Free(
    session: Session,
    timers: nat,
    initiations: nat,
    notified: nat,
    gaveUp: nat,
    linkRequests: nat)

  const BEGIN := Free(FRESH, 0, 0, 0, 0, 0)

  predicate Enabled(c: Free, e: Event) {
    match e
    case Initiates(_) => true
    case Ticks => c.timers > 0
    case Replies(r) => Expected(c.session, r)
  }

  function Next(c: Free, e: Event): Free
    requires Enabled(c, e)
  {
    match e
    case Initiates(slot) =>
      c.(session := Initiate(c.session, slot), timers := c.timers + 1, initiations := c.initiations + 1)
    case Replies(r) =>
      c.(session := OnReply(c.session, r).0)
    case Ticks =>
      var (s, action) := Tick(c.session);
      match action
      case Wait => c.(session := s)
      case Send(AddLink) => c.(session := s, linkRequests := c.linkRequests + 1)
      case Send(_) => c.(session := s)
      case NotifyDcm => c.(session := s, timers := c.timers - 1, notified := c.notified + 1)
      case GiveUp => c.(session := s, timers := c.timers - 1, gaveUp := c.gaveUp + 1)
  }

  function After(es: seq<Event>): Option<Free> {
    if es == [] then Some(BEGIN)
    else
      match After(es[..|es| - 1])
      case None => None
      case Some(c) => if Enabled(c, es[|es| - 1]) then Some(Next(c, es[|es| - 1])) else None
  }

  /** The link request of an initiation is still to come while `setupLinkDone` is unset. */
  predicate Balanced(c: Free) {
    && c.initiations == c.timers + c.notified + c.gaveUp
    && (c.initiations == 0 ==> c.linkRequests == 0)
    && (c.initiations > 0 ==> c.linkRequests + (if c.session.setupLinkDone then 0 else 1) <= c.initiations)
  }

  lemma {:induction false} BalancedNext(c: Free, e: Event)
    requires Balanced(c) && Enabled(c, e)
    ensures Balanced(Next(c, e))
  {
  }

  /**
   Conservation under every interleaving: each initiation is a timer that still
   runs, a tick that notified or a timer that gave up, and no initiation asks
   for more than one link.
   */
  lemma {:induction false} Conservation(es: seq<Event>)
    requires After(es).Some?
    ensures var c := After(es).value;
            c.initiations == c.timers + c.notified + c.gaveUp && c.linkRequests <= c.initiations &&
            Balanced(c)
  {
    if es != [] {
      var front := es[..|es| - 1];
      Conservation(front);
      BalancedNext(After(front).value, es[|es| - 1]);
    }
  }
}
