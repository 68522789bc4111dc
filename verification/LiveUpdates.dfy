/**
 The notification poller (frontend/providers/LiveUpdatesProvider.tsx). `pulse` asks for the latest page
 and the unread count, and bumps the live bus when something is new. Pulses overlap: the timer, focus
 and visibility handlers start new ones while replies are outstanding, and replies come back in any
 order. Losing or regaining `canRead` re-runs the effect, which cancels every pulse of the old one.

 A session is the life of one effect. The results compare each bump with the whole history of
 responses processed in its session.
 */
module LiveUpdates {
  import opened Wrappers

  datatype Notification = Notification(id: string, referenceType: Option<string>, referenceId: Option<string>)

  datatype Bump = Bump(referenceType: Option<string>, referenceId: Option<string>)

  datatype Refs = Refs(seenIds: set<string>, primed: bool, lastUnread: Option<int>)

  const RESET := Refs({}, false, None)

  // ---------- one response ----------

  // The ids of a page that are not empty.
  function Ids(page: seq<Notification>): set<string> {
    set n | n in page && n.id != "" :: n.id
  }

  function Fresh(page: seq<Notification>, seen: set<string>): seq<Notification> {
    if page == [] then [] else
      var last := page[|page| - 1];
      Fresh(page[..|page| - 1], seen) + if last.id != "" && last.id !in seen then [last] else []
  }

  function FirstReference(news: seq<Notification>): Bump {
    if news == [] then Bump(None, None) else Bump(news[0].referenceType, news[0].referenceId)
  }

  // What `pulse` does after its awaits, unless it was cancelled.
  function Process(refs: Refs, page: seq<Notification>, unread: int): (Refs, seq<Notification>, Option<Bump>) {
    if !refs.primed then (Refs(Ids(page), true, Some(unread)), [], None) else
      var news := Fresh(page, refs.seenIds);
      var grew := refs.lastUnread.Some? && unread > refs.lastUnread.value;
      (Refs(refs.seenIds + Ids(page), true, Some(unread)), news,
       if news != [] || grew then Some(FirstReference(news)) else None)
  }

  class Provider {
    var seenIds: set<string>
    var primed: bool
    var lastUnread: Option<int>

    function Snapshot(): Refs
      reads this
    {
      Refs(seenIds, primed, lastUnread)
    }

    constructor ()
      ensures Snapshot() == RESET
    {
      seenIds, primed, lastUnread := {}, false, None;
    }

    method Reset()
      modifies this
      ensures Snapshot() == RESET
    {
      seenIds, primed, lastUnread := {}, false, None;
    }

    method OnResponse(page: seq<Notification>, unread: int) returns (news: seq<Notification>, bump: Option<Bump>)
      modifies this
      ensures (Snapshot(), news, bump) == Process(old(Snapshot()), page, unread)
      ensures primed && lastUnread == Some(unread)
      ensures seenIds == (if old(primed) then old(seenIds) else {}) + set n | n in page && n.id != "" :: n.id
      ensures !old(primed) ==> news == [] && bump == None
      ensures old(primed) ==>
                && (forall n :: n in news <==> n in page && n.id != "" && n.id !in old(seenIds))
                && (bump.Some? <==> news != [] || (old(lastUnread).Some? && unread > old(lastUnread).value))
    {
      FreshHolds(page, seenIds);
      if !primed {
        seenIds := Ids(page);
        lastUnread := Some(unread);
        primed := true;
        return [], None;
      }
      news := Fresh(page, seenIds);
      for i := 0 to |page|
        invariant seenIds == old(seenIds) + Ids(page[..i])
        invariant primed && lastUnread == old(lastUnread)
      {
        assert page[..i + 1] == page[..i] + [page[i]];
        if page[i].id != "" {
          seenIds := seenIds + {page[i].id};
        }
      }
      assert page[..|page|] == page;
      var unreadGrew := lastUnread.Some? && unread > lastUnread.value;
      lastUnread := Some(unread);
      if |news| > 0 || unreadGrew {
        return news, Some(FirstReference(news));
      }
      return news, None;
    }
  }

  // ---------- interleavings ----------

  datatype Pulse = Pulse(session: nat, pending: bool)

  // One processed response, with what it led to.
  datatype Entry = Entry(session: nat, page: seq<Notification>, unread: int, news: seq<Notification>,
                         bump: Option<Bump>)

  datatype State = State(canRead: bool, session: nat, refs: Refs, pulses: seq<Pulse>, log: seq<Entry>)

  datatype Event =
    | SetCanRead(canRead: bool)
    | StartPulse(visible: bool)
    | Reply(pulse: nat, page: seq<Notification>, unread: int)
    | PulseFails(pulse: nat)

  const START := State(false, 0, RESET, [], [])

  function Settle(s: State, pulse: nat): State
    requires pulse < |s.pulses|
  {
    s.(pulses := s.pulses[pulse := s.pulses[pulse].(pending := false)])
  }

  function Step(s: State, e: Event): State {
    match e
    case SetCanRead(canRead) =>
      if canRead == s.canRead then s
      else s.(canRead := canRead, session := s.session + 1, refs := if canRead then s.refs else RESET)
    case StartPulse(visible) =>
      if s.canRead && visible then s.(pulses := s.pulses + [Pulse(s.session, true)]) else s
    case Reply(pulse, page, unread) =>
      if pulse >= |s.pulses| || !s.pulses[pulse].pending then s
      else if s.pulses[pulse].session != s.session then Settle(s, pulse)
      else
        var (refs, news, bump) := Process(s.refs, page, unread);
        Settle(s.(refs := refs, log := s.log + [Entry(s.session, page, unread, news, bump)]), pulse)
    case PulseFails(pulse) => if pulse < |s.pulses| then Settle(s, pulse) else s
  }

  function Run(events: seq<Event>): State {
    if events == [] then START else Step(Run(events[..|events| - 1]), events[|events| - 1])
  }

  lemma RunIsSteps(events: seq<Event>, event: Event)
    ensures Run([]) == START
    ensures Run(events + [event]) == Step(Run(events), event)
  {
    hide Step;
    assert (events + [event])[..|events|] == events;
  }

  // ---------- history ----------

  // All non-empty ids in the responses of a session.
  function SessionIds(log: seq<Entry>, session: nat): set<string> {
    if log == [] then {} else
      var last := log[|log| - 1];
      SessionIds(log[..|log| - 1], session) + if last.session == session then Ids(last.page) else {}
  }

  // The unread count of the latest response of a session, if it had any.
  function SessionUnread(log: seq<Entry>, session: nat): Option<int> {
    if log == [] then None else
      var last := log[|log| - 1];
      if last.session == session then Some(last.unread) else SessionUnread(log[..|log| - 1], session)
  }

  // What an entry must say, given the responses before it: the first of a session is silent, any other
  // reports exactly the notifications never seen in its session, and bumps when there is one or when the
  // unread count rose.
  ghost predicate EntryOk(before: seq<Entry>, entry: Entry) {
    var unread := SessionUnread(before, entry.session);
    && (unread.None? ==> entry.news == [] && entry.bump == None)
    && (unread.Some? ==>
          && entry.news == Fresh(entry.page, SessionIds(before, entry.session))
          && entry.bump == if entry.news != [] || entry.unread > unread.value
                           then Some(FirstReference(entry.news)) else None)
  }

  ghost predicate Inv(s: State) {
    && s.refs.seenIds == SessionIds(s.log, s.session)
    && s.refs.lastUnread == SessionUnread(s.log, s.session)
    && (s.refs.primed <==> s.refs.lastUnread.Some?)
    && (!s.canRead ==> s.refs == RESET)
    && (forall i :: 0 <= i < |s.log| ==> s.log[i].session <= s.session && EntryOk(s.log[..i], s.log[i]))
    && (forall i :: 0 <= i < |s.pulses| ==> s.pulses[i].session <= s.session)
    && (!s.canRead ==> forall i :: 0 <= i < |s.pulses| ==> s.pulses[i].session < s.session)
  }

  lemma {:induction false} NewSessionEmpty(log: seq<Entry>, session: nat)
    requires forall i :: 0 <= i < |log| ==> log[i].session < session
    ensures SessionIds(log, session) == {} && SessionUnread(log, session) == None
  {
    if log != [] {
      NewSessionEmpty(log[..|log| - 1], session);
    }
  }

  lemma LogAppend(log: seq<Entry>, entry: Entry, session: nat)
    ensures SessionIds(log + [entry], session) ==
            SessionIds(log, session) + if entry.session == session then Ids(entry.page) else {}
    ensures SessionUnread(log + [entry], session) ==
            if entry.session == session then Some(entry.unread) else SessionUnread(log, session)
  {
    assert (log + [entry])[..|log|] == log;
  }

  // An entry that is judged against the log before it stays judged when the log grows.
  lemma EntriesStayOk(log: seq<Entry>, entry: Entry)
    requires forall i :: 0 <= i < |log| ==> EntryOk(log[..i], log[i])
    requires EntryOk(log, entry)
    ensures forall i :: 0 <= i < |log| + 1 ==> EntryOk((log + [entry])[..i], (log + [entry])[i])
  {
    forall i | 0 <= i < |log| + 1 ensures EntryOk((log + [entry])[..i], (log + [entry])[i]) {
      assert (log + [entry])[..i] == log[..i];
      assert log[..|log|] == log;
    }
  }

  lemma StepKeeps(s: State, e: Event)
    requires Inv(s)
    ensures Inv(Step(s, e))
  {
    hide SessionIds, SessionUnread, EntryOk, Process;
    match e
    case SetCanRead(canRead) =>
      if canRead != s.canRead {
        NewSessionEmpty(s.log, s.session + 1);
      }
    case Reply(pulse, page, unread) =>
      hide Inv;
      if pulse < |s.pulses| && s.pulses[pulse].pending {
        if s.pulses[pulse].session == s.session {
          ReplyKeeps(s, pulse, page, unread);
        } else {
          SettleKeeps(s, pulse);
        }
      }
    case PulseFails(pulse) =>
      hide Inv;
      if pulse < |s.pulses| {
        SettleKeeps(s, pulse);
      }
    case StartPulse(_) =>
  }

  lemma SettleKeeps(s: State, pulse: nat)
    requires Inv(s) && pulse < |s.pulses|
    ensures Inv(Settle(s, pulse))
  {
    hide SessionIds, SessionUnread, EntryOk;
  }

  lemma ReplyKeeps(s: State, pulse: nat, page: seq<Notification>, unread: int)
    requires Inv(s) && pulse < |s.pulses| && s.pulses[pulse].session == s.session
    ensures var (refs, news, bump) := Process(s.refs, page, unread);
            Inv(Settle(s.(refs := refs, log := s.log + [Entry(s.session, page, unread, news, bump)]), pulse))
  {
    hide SessionIds, SessionUnread, Fresh, Ids;
    var (refs, news, bump) := Process(s.refs, page, unread);
    var entry := Entry(s.session, page, unread, news, bump);
    assert EntryOk(s.log, entry);
    NoUnreadNoIds(s.log, s.session);
    LogAppend(s.log, entry, s.session);
    EntriesStayOk(s.log, entry);
    assert s.canRead;
    var s' := s.(refs := refs, log := s.log + [entry]);
    assert Inv(s') by {
      hide EntryOk;
    }
    SettleKeeps(s', pulse);
  }

  lemma {:induction false} NoUnreadNoIds(log: seq<Entry>, session: nat)
    ensures SessionUnread(log, session).None? ==> SessionIds(log, session) == {}
  {
    if log != [] {
      NoUnreadNoIds(log[..|log| - 1], session);
    }
  }

  // ---------- main results, over every interleaving ----------

  lemma {:induction false} RunInv(events: seq<Event>)
    ensures Inv(Run(events))
  {
    if events != [] {
      RunInv(events[..|events| - 1]);
      StepKeeps(Run(events[..|events| - 1]), events[|events| - 1]);
    }
  }

  // What the page remembers is exactly what the processed responses of the running session contained; with
  // no permission it remembers nothing.
  lemma RemembersSession(events: seq<Event>)
    ensures var s := Run(events);
            && s.refs.seenIds == SessionIds(s.log, s.session)
            && s.refs.lastUnread == SessionUnread(s.log, s.session)
            && (!s.canRead ==> s.refs == RESET)
  {
    RunInv(events);
  }

  // Every response in every run is judged against the full history of its session.
  lemma EveryBumpJustified(events: seq<Event>, i: nat)
    requires i < |Run(events).log|
    ensures EntryOk(Run(events).log[..i], Run(events).log[i])
  {
    RunInv(events);
  }

  lemma {:induction false} FreshHolds(page: seq<Notification>, seen: set<string>)
    ensures forall n :: n in Fresh(page, seen) <==> n in page && n.id != "" && n.id !in seen
  {
    if page != [] {
      FreshHolds(page[..|page| - 1], seen);
      assert page == page[..|page| - 1] + [page[|page| - 1]];
    }
  }

  lemma {:induction false} EarlierIdsSeen(log: seq<Entry>, i: nat, session: nat)
    requires i < |log| && log[i].session == session
    ensures Ids(log[i].page) <= SessionIds(log, session)
    ensures SessionUnread(log, session).Some?
  {
    if i < |log| - 1 {
      EarlierIdsSeen(log[..|log| - 1], i, session);
    }
  }

  // A notification is reported by at most one response of a session.
  lemma ReportedOnce(events: seq<Event>, i: nat, j: nat, id: string)
    requires var log := Run(events).log;
             && i < j < |log| && log[i].session == log[j].session
             && exists n :: n in log[i].news && n.id == id
    ensures forall n :: n in Run(events).log[j].news ==> n.id != id
  {
    var log := Run(events).log;
    RunInv(events);
    assert EntryOk(log[..i], log[i]) && EntryOk(log[..j], log[j]);
    var n :| n in log[i].news && n.id == id;
    FreshHolds(log[i].page, SessionIds(log[..i], log[i].session));
    assert n in log[i].page && id in Ids(log[i].page);
    assert log[..j][i] == log[i];
    EarlierIdsSeen(log[..j], i, log[j].session);
    FreshHolds(log[j].page, SessionIds(log[..j], log[j].session));
  }

  // The first response of a session primes it: it reports nothing, bumps nothing, and none of its ids is
  // ever reported in that session.
  lemma PrimingIsSilent(events: seq<Event>, i: nat)
    requires i < |Run(events).log|
    requires var log := Run(events).log; forall k :: 0 <= k < i ==> log[k].session != log[i].session
    ensures var log := Run(events).log;
            && log[i].bump == None && log[i].news == []
            && forall j, n :: i < j < |log| && log[j].session == log[i].session && n in log[j].news ==>
                 n.id !in Ids(log[i].page)
  {
    var log := Run(events).log;
    RunInv(events);
    assert EntryOk(log[..i], log[i]);
    NoneBefore(log[..i], log[i].session);
    forall j, n | i < j < |log| && log[j].session == log[i].session && n in log[j].news
      ensures n.id !in Ids(log[i].page)
    {
      assert EntryOk(log[..j], log[j]);
      assert log[..j][i] == log[i];
      EarlierIdsSeen(log[..j], i, log[j].session);
      FreshHolds(log[j].page, SessionIds(log[..j], log[j].session));
    }
  }

  lemma {:induction false} NoneBefore(log: seq<Entry>, session: nat)
    requires forall k :: 0 <= k < |log| ==> log[k].session != session
    ensures SessionUnread(log, session) == None
  {
    if log != [] {
      NoneBefore(log[..|log| - 1], session);
    }
  }

  // Nothing is missed: an id that a later response of the session is the first to show is reported by it,
  // with a bump.
  lemma NewIdIsReported(events: seq<Event>, i: nat, first: nat, n: Notification)
    requires var log := Run(events).log;
             && first < i < |log| && log[first].session == log[i].session
             && n in log[i].page && n.id != "" && n.id !in SessionIds(log[..i], log[i].session)
    ensures n in Run(events).log[i].news && Run(events).log[i].bump.Some?
  {
    var log := Run(events).log;
    RunInv(events);
    assert EntryOk(log[..i], log[i]);
    assert log[..i][first] == log[first];
    EarlierIdsSeen(log[..i], first, log[i].session);
    FreshHolds(log[i].page, SessionIds(log[..i], log[i].session));
  }

  lemma {:induction false} FirstFresh(page: seq<Notification>, seen: set<string>) returns (k: nat)
    requires Fresh(page, seen) != []
    ensures k < |page| && page[k] == Fresh(page, seen)[0] && page[k].id != "" && page[k].id !in seen
    ensures forall j :: 0 <= j < k ==> page[j].id == "" || page[j].id in seen
  {
    var front := page[..|page| - 1];
    if Fresh(front, seen) != [] {
      k := FirstFresh(front, seen);
    } else {
      k := |page| - 1;
      FreshHolds(front, seen);
      forall j | 0 <= j < k ensures page[j].id == "" || page[j].id in seen {
        assert front[j] == page[j] && page[j] in front;
      }
    }
  }

  // A bump for new notifications names the first one on the page that its session had not shown.
  lemma BumpNamesFirstNew(events: seq<Event>, i: nat) returns (k: nat)
    requires i < |Run(events).log| && Run(events).log[i].news != []
    ensures var log := Run(events).log; var page, seen := log[i].page, SessionIds(log[..i], log[i].session);
            && k < |page| && page[k].id != "" && page[k].id !in seen
            && (forall j :: 0 <= j < k ==> page[j].id == "" || page[j].id in seen)
            && log[i].bump == Some(Bump(page[k].referenceType, page[k].referenceId))
  {
    hide Run, Inv, Fresh, SessionIds, SessionUnread;
    EveryBumpJustified(events, i);
    var log := Run(events).log;
    k := FirstFresh(log[i].page, SessionIds(log[..i], log[i].session));
  }

  // ---------- responses do get processed ----------

  // A pulse starts exactly when notifications may be read and the page is visible.
  lemma PulseStarts(s: State, visible: bool)
    ensures var s' := Step(s, StartPulse(visible));
            if s.canRead && visible then s' == s.(pulses := s.pulses + [Pulse(s.session, true)]) else s' == s
  {
  }

  // The response to an outstanding pulse of the running session is processed: it is logged, its ids are
  // remembered and its count replaces the last one.
  lemma ResponseProcessed(s: State, pulse: nat, page: seq<Notification>, unread: int)
    requires pulse < |s.pulses| && s.pulses[pulse] == Pulse(s.session, true)
    ensures var s' := Step(s, Reply(pulse, page, unread));
            && |s'.log| == |s.log| + 1 && s'.log[..|s.log|] == s.log
            && s'.log[|s.log|].session == s.session
            && s'.log[|s.log|].page == page && s'.log[|s.log|].unread == unread
            && s'.session == s.session && s'.canRead == s.canRead
            && s'.refs.primed && s'.refs.lastUnread == Some(unread)
            && (forall n :: n in page && n.id != "" ==> n.id in s'.refs.seenIds)
            && s'.pulses == s.pulses[pulse := Pulse(s.session, false)]
  {
    hide Fresh;
  }

  // The response to a pulse of an earlier session, or one that failed, changes nothing that is remembered.
  lemma StaleResponseIgnored(s: State, pulse: nat, page: seq<Notification>, unread: int)
    requires pulse < |s.pulses| && s.pulses[pulse].session != s.session
    ensures var s' := Step(s, Reply(pulse, page, unread)); s'.refs == s.refs && s'.log == s.log
    ensures var s' := Step(s, PulseFails(pulse)); s'.refs == s.refs && s'.log == s.log
  {
  }

  // A pulse is settled once: after its failure or its response no response to it is processed any more.
  lemma SettledOnce(s: State, pulse: nat, page: seq<Notification>, unread: int, again: seq<Notification>, count: int)
    ensures var s' := Step(s, PulseFails(pulse)); Step(s', Reply(pulse, page, unread)) == s'
    ensures var s' := Step(s, Reply(pulse, page, unread)); Step(s', Reply(pulse, again, count)) == s'
  {
    hide Process;
  }

  // Gaining or losing the permission starts a new session; without it nothing is remembered.
  lemma PermissionStartsSession(s: State, canRead: bool)
    requires canRead != s.canRead
    ensures var s' := Step(s, SetCanRead(canRead));
            s'.session == s.session + 1 && s'.canRead == canRead && (!canRead ==> s'.refs == Refs({}, false, None))
  {
  }
}
