/** Lossy publish and subscribe (broker.go).

    Every method holds the mutex throughout, so a run is the sequence of calls
    in lock order, with the receives of the subscribers between them.  Channels
    are named by the order they were made in. */
module Broker {
  import opened Options

  datatype Message = Message(name: string, data: string)

  const SUBSCRIBER_BUFFER := 8

  /** `spent` is the flag of the sync.Once inside the channel's cancel function. */
  datatype Channel = Channel(event: string, buf: seq<Message>, open: bool, spent: bool) {
    /** A non-blocking send, which a full buffer turns away. */
    function Offered(m: Message): Channel {
      if |buf| < SUBSCRIBER_BUFFER then this.(buf := buf + [m]) else this
    }
  }

  datatype State = State(subs: map<string, set<nat>>, chans: seq<Channel>) {
    predicate Registered(e: string, ch: nat) {
      e in subs && ch in subs[e]
    }

    /** The channels on the books are exactly the open ones, each under its
        own event; no event is on the books without a channel. */
    ghost predicate Valid() {
      && (forall e, ch: nat :: Registered(e, ch) <==> ch < |chans| && chans[ch].open && chans[ch].event == e)
      && (forall e <- subs :: subs[e] != {})
      && (forall c <- chans :: |c.buf| <= SUBSCRIBER_BUFFER && (c.open <==> !c.spent))
    }
  }

  // ---------- the calls; None stands for a panic ----------

  function Watchers(s: State, e: string): set<nat> {
    if e in s.subs then s.subs[e] else {}
  }

  function SubscribeStep(s: State, e: string): State {
    State(s.subs[e := Watchers(s, e) + {|s.chans|}], s.chans + [Channel(e, [], true, false)])
  }

  function Without(subs: map<string, set<nat>>, e: string, ch: nat): map<string, set<nat>> {
    if e !in subs then subs
    else if subs[e] - {ch} == {} then subs - {e}
    else subs[e := subs[e] - {ch}]
  }

  lemma WithoutMeaning(subs: map<string, set<nat>>, e: string, ch: nat, f: string, i: nat)
    ensures var rest := Without(subs, e, ch);
            (f in rest && i in rest[f]) <==> (f in subs && i in subs[f] && !(f == e && i == ch))
  {
    if e in subs {
      assert i in subs[e] && i != ch ==> i in subs[e] - {ch};
    }
  }

  /** Closing a closed channel panics. */
  function CancelStep(s: State, ch: nat): Option<State>
    requires ch < |s.chans|
  {
    var c := s.chans[ch];
    if c.spent then Some(s)
    else if !c.open then None
    else Some(State(Without(s.subs, c.event, ch), s.chans[ch := c.(open := false, spent := true)]))
  }

  function Delivered(chans: seq<Channel>, to: set<nat>, m: Message): (r: seq<Channel>)
    ensures |r| == |chans|
  {
    seq(|chans|, i requires 0 <= i < |chans| => if i in to then chans[i].Offered(m) else chans[i])
  }

  /** Sending on a closed channel panics. */
  function PublishStep(s: State, e: string, m: Message): Option<State> {
    var to := Watchers(s, e);
    if exists ch <- to :: ch < |s.chans| && !s.chans[ch].open then None
    else Some(s.(chans := Delivered(s.chans, to, m)))
  }

  /** A receive takes the oldest message; on an empty buffer it waits, and nothing changes. */
  function ReceiveStep(s: State, ch: nat): State
    requires ch < |s.chans|
  {
    var c := s.chans[ch];
    if c.buf == [] then s else s.(chans := s.chans[ch := c.(buf := c.buf[1..])])
  }

  class Broker {
    var subs: map<string, set<nat>>
    var chans: seq<Channel>

    ghost function Abs(): State
      reads this
    {
      State(subs, chans)
    }

    constructor ()
      ensures Abs() == State(map[], []) && Abs().Valid()
    {
      subs, chans := map[], [];
    }

    method Subscribe(e: string) returns (ch: nat)
      requires Abs().Valid()
      modifies this
      ensures Abs() == SubscribeStep(old(Abs()), e) && Abs().Valid()
      ensures ch == |old(chans)|
    {
      SubscribeKeeps(Abs(), e);
      ch := |chans|;
      chans := chans + [Channel(e, [], true, false)];
      if e !in subs {
        subs := subs[e := {}];
      }
      subs := subs[e := subs[e] + {ch}];
    }

    /** The function Subscribe hands out for the channel. */
    method Cancel(ch: nat)
      requires Abs().Valid() && ch < |chans|
      modifies this
      ensures CancelStep(old(Abs()), ch) == Some(Abs()) && Abs().Valid()
    {
      CancelKeeps(Abs(), ch);
      ghost var was := subs;
      if chans[ch].spent {
        return;
      }
      var e := chans[ch].event;
      if e in subs {
        subs := subs[e := subs[e] - {ch}];
        if subs[e] == {} {
          subs := subs - {e};
        }
      }
      chans := chans[ch := chans[ch].(open := false, spent := true)];
      assert subs == Without(was, e, ch);
    }

    method Publish(e: string, m: Message)
      requires Abs().Valid()
      modifies this
      ensures PublishStep(old(Abs()), e, m) == Some(Abs()) && Abs().Valid()
    {
      PublishKeeps(Abs(), e, m);
      ghost var was := chans;
      assert Delivered(was, {}, m) == was;
      if e in subs {
        var todo := subs[e];
        while todo != {}
          invariant subs == old(subs) && todo <= subs[e]
          invariant |chans| == |was| && chans == Delivered(was, subs[e] - todo, m)
          decreases todo
        {
          var ch :| ch in todo;
          assert State(subs, was).Registered(e, ch);
          assert chans[ch].open;
          if |chans[ch].buf| < SUBSCRIBER_BUFFER {
            chans := chans[ch := chans[ch].(buf := chans[ch].buf + [m])];
          }
          todo := todo - {ch};
        }
        assert subs[e] - todo == subs[e];
      }
    }
  }

  // ---------- what every call keeps ----------

  lemma SubscribeKeeps(s: State, e: string)
    requires s.Valid()
    ensures SubscribeStep(s, e).Valid()
  {
    var t := SubscribeStep(s, e);
    assert !s.Registered(e, |s.chans|);
    forall f, ch: nat
      ensures t.Registered(f, ch) <==> ch < |t.chans| && t.chans[ch].open && t.chans[ch].event == f
    {
      assert s.Registered(f, ch) <==> ch < |s.chans| && s.chans[ch].open && s.chans[ch].event == f;
    }
  }

  lemma CancelKeeps(s: State, ch: nat)
    requires s.Valid() && ch < |s.chans|
    ensures CancelStep(s, ch).Some? && CancelStep(s, ch).value.Valid()
  {
    assert s.chans[ch] in s.chans;
    var t := CancelStep(s, ch).value;
    var e := s.chans[ch].event;
    assert forall f <- t.subs :: t.subs[f] != {};
    forall f, i: nat
      ensures t.Registered(f, i) <==> i < |t.chans| && t.chans[i].open && t.chans[i].event == f
    {
      WithoutMeaning(s.subs, e, ch, f, i);
      assert s.Registered(f, i) <==> i < |s.chans| && s.chans[i].open && s.chans[i].event == f;
    }
  }

  lemma PublishKeeps(s: State, e: string, m: Message)
    requires s.Valid()
    ensures PublishStep(s, e, m).Some? && PublishStep(s, e, m).value.Valid()
  {
    forall ch | ch in Watchers(s, e) ensures ch < |s.chans| && s.chans[ch].open {
      assert s.Registered(e, ch);
    }
    var t := PublishStep(s, e, m).value;
    forall f, i: nat
      ensures t.Registered(f, i) <==> i < |t.chans| && t.chans[i].open && t.chans[i].event == f
    {
      assert s.Registered(f, i) <==> i < |s.chans| && s.chans[i].open && s.chans[i].event == f;
    }
  }

  lemma ReceiveKeeps(s: State, ch: nat)
    requires s.Valid() && ch < |s.chans|
    ensures ReceiveStep(s, ch).Valid()
  {
    var t := ReceiveStep(s, ch);
    assert s.chans[ch] in s.chans;
    forall f, i: nat
      ensures t.Registered(f, i) <==> i < |t.chans| && t.chans[i].open && t.chans[i].event == f
    {
      assert s.Registered(f, i) <==> i < |s.chans| && s.chans[i].open && s.chans[i].event == f;
    }
  }

  // ---------- runs ----------

  datatype Op = Subscribe(e: string) | Publish(e: string, m: Message) | Receive(ch: nat) | Cancel(ch: nat)

  /** A receive or cancel needs a channel, so one that does not exist yet changes nothing. */
  function Next(s: State, op: Op): Option<State> {
    match op
    case Subscribe(e) => Some(SubscribeStep(s, e))
    case Publish(e, m) => PublishStep(s, e, m)
    case Receive(ch) => if ch < |s.chans| then Some(ReceiveStep(s, ch)) else Some(s)
    case Cancel(ch) => if ch < |s.chans| then CancelStep(s, ch) else Some(s)
  }

  function Run(ops: seq<Op>): Option<State> {
    if ops == [] then Some(State(map[], []))
    else match Run(ops[..|ops| - 1])
      case None => None
      case Some(s) => Next(s, ops[|ops| - 1])
  }

  lemma NextKeeps(s: State, op: Op)
    requires s.Valid()
    ensures Next(s, op).Some? && Next(s, op).value.Valid()
  {
    match op
    case Subscribe(e) => SubscribeKeeps(s, e);
    case Publish(e, m) => PublishKeeps(s, e, m);
    case Receive(ch) => if ch < |s.chans| { ReceiveKeeps(s, ch); }
    case Cancel(ch) => if ch < |s.chans| { CancelKeeps(s, ch); }
  }

  /** No interleaving sends on a closed channel or closes one twice, however
      often a cancel is repeated, and the books hold after every call. */
  lemma {:induction false} NeverPanics(ops: seq<Op>)
    ensures Run(ops).Some? && Run(ops).value.Valid()
  {
    if ops != [] {
      NeverPanics(ops[..|ops| - 1]);
      NextKeeps(Run(ops[..|ops| - 1]).value, ops[|ops| - 1]);
      hide Next;
    }
  }

  /** The state a run ends in. */
  ghost function End(ops: seq<Op>): (s: State)
    ensures s.Valid()
  {
    NeverPanics(ops);
    Run(ops).value
  }

  lemma EndStep(ops: seq<Op>)
    requires ops != []
    ensures Next(End(ops[..|ops| - 1]), ops[|ops| - 1]) == Some(End(ops))
  {
    NeverPanics(ops[..|ops| - 1]);
    NeverPanics(ops);
    hide Next;
  }

  // ---------- what the calls alone say ----------

  function Subscriptions(ops: seq<Op>): nat {
    if ops == [] then 0 else Subscriptions(ops[..|ops| - 1]) + (if ops[|ops| - 1].Subscribe? then 1 else 0)
  }

  /** The event channel ch watches: from its own Subscribe to its first Cancel. */
  function Watching(ops: seq<Op>, ch: nat): Option<string> {
    if ops == [] then None
    else
      var init, op := ops[..|ops| - 1], ops[|ops| - 1];
      match op
      case Subscribe(e) => if ch == Subscriptions(init) then Some(e) else Watching(init, ch)
      case Cancel(c) => if c == ch then None else Watching(init, ch)
      case Publish(_, _) => Watching(init, ch)
      case Receive(_) => Watching(init, ch)
  }

  /** The last call publishes to the event ch is watching. */
  predicate Reaches(ops: seq<Op>, ch: nat): (r: bool)
    requires ops != []
    ensures r ==> ops[|ops| - 1].Publish?
  {
    var op := ops[|ops| - 1];
    op.Publish? && Watching(ops[..|ops| - 1], ch) == Some(op.e)
  }

  /** The messages published to the event while ch was watching it. */
  function Published(ops: seq<Op>, ch: nat): seq<Message> {
    if ops == [] then []
    else Published(ops[..|ops| - 1], ch) + (if Reaches(ops, ch) then [ops[|ops| - 1].m] else [])
  }

  /** Something was published to ch since it was last received from. */
  predicate Pending(ops: seq<Op>, ch: nat) {
    ops != []
    && (Reaches(ops, ch) || (ops[|ops| - 1] != Receive(ch) && Pending(ops[..|ops| - 1], ch)))
  }

  // ---------- what the subscriber sees ----------

  ghost function Buffer(ops: seq<Op>, ch: nat): seq<Message> {
    if ch < |End(ops).chans| then End(ops).chans[ch].buf else []
  }

  /** The messages the subscriber has taken from ch. */
  ghost function Received(ops: seq<Op>, ch: nat): seq<Message> {
    if ops == [] then []
    else
      var init := ops[..|ops| - 1];
      Received(init, ch)
      + (if ops[|ops| - 1] == Receive(ch) && Buffer(init, ch) != [] then [Buffer(init, ch)[0]] else [])
  }

  /** The publishes to ch that found eight messages waiting. */
  ghost function TurnedAway(ops: seq<Op>, ch: nat): nat {
    if ops == [] then 0
    else
      var init := ops[..|ops| - 1];
      TurnedAway(init, ch) + (if Reaches(ops, ch) && |Buffer(init, ch)| == SUBSCRIBER_BUFFER then 1 else 0)
  }

  predicate IsSubsequence<T(==)>(a: seq<T>, b: seq<T>) {
    a == []
    || (b != [] && (IsSubsequence(a, b[..|b| - 1])
                    || (a[|a| - 1] == b[|b| - 1] && IsSubsequence(a[..|a| - 1], b[..|b| - 1]))))
  }

  /** The books agree with the calls: a channel is open, and registered under
      its event alone, exactly while it watches. */
  lemma {:induction false} RegisteredIffWatching(ops: seq<Op>, ch: nat)
    ensures |End(ops).chans| == Subscriptions(ops)
    ensures forall e :: End(ops).Registered(e, ch) <==> Watching(ops, ch) == Some(e)
    ensures Watching(ops, ch).Some? <==> ch < |End(ops).chans| && End(ops).chans[ch].open
  {
    var t := End(ops);
    if ops != [] {
      var init, op := ops[..|ops| - 1], ops[|ops| - 1];
      RegisteredIffWatching(init, ch);
      EndStep(ops);
      var s := End(init);
      if ch < |s.chans| {
        assert s.chans[ch] in s.chans;
      }
      hide Run, End;
    }
    hide Run, End;
    assert forall e :: t.Registered(e, ch) <==> ch < |t.chans| && t.chans[ch].open && t.chans[ch].event == e;
  }

  lemma SubsequenceGrows<T>(a: seq<T>, b: seq<T>, x: T)
    requires IsSubsequence(a, b)
    ensures IsSubsequence(a, b + [x]) && IsSubsequence(a + [x], b + [x])
  {
    assert (b + [x])[..|b|] == b && (a + [x])[..|a|] == a;
  }

  /** What one call does to one channel's buffer. */
  lemma BufferStep(ops: seq<Op>, ch: nat)
    requires ops != []
    ensures var (init, op) := (ops[..|ops| - 1], ops[|ops| - 1]);
            var was := Buffer(init, ch);
            && |was| <= SUBSCRIBER_BUFFER
            && Buffer(ops, ch) ==
                 if Reaches(ops, ch) then (if |was| < SUBSCRIBER_BUFFER then was + [op.m] else was)
                 else if op == Receive(ch) && was != [] then was[1..]
                 else was
  {
    var init, op := ops[..|ops| - 1], ops[|ops| - 1];
    var s := End(init);
    EndStep(ops);
    RegisteredIffWatching(init, ch);
    if ch < |s.chans| {
      assert s.chans[ch] in s.chans;
    }
    if op.Publish? {
      assert s.Registered(op.e, ch) <==> Watching(init, ch) == Some(op.e);
    }
    hide Run, Watching, End;
  }

  /** What a subscriber has taken and still has waiting is, in order, a
      subsequence of what was published to it; what is missing from it are
      exactly the publishes that found eight messages waiting. */
  lemma {:induction false} OnlyDropsWhenFull(ops: seq<Op>, ch: nat)
    ensures IsSubsequence(Received(ops, ch) + Buffer(ops, ch), Published(ops, ch))
    ensures |Published(ops, ch)| == |Received(ops, ch)| + |Buffer(ops, ch)| + TurnedAway(ops, ch)
  {
    hide Buffer, Reaches, IsSubsequence, Received, Published, TurnedAway;
    if ops == [] {
      NothingYet(ch);
    } else {
      var init, op := ops[..|ops| - 1], ops[|ops| - 1];
      OnlyDropsWhenFull(init, ch);
      BufferStep(ops, ch);
      HistoryStep(ops, ch);
      var got, was, sent := Received(init, ch), Buffer(init, ch), Published(init, ch);
      if Reaches(ops, ch) {
        SubsequenceGrows(got + was, sent, op.m);
        assert got + (was + [op.m]) == got + was + [op.m];
      } else if op == Receive(ch) && was != [] {
        assert got + [was[0]] + was[1..] == got + was;
      }
    }
  }

  lemma HistoryStep(ops: seq<Op>, ch: nat)
    requires ops != []
    ensures var (init, op) := (ops[..|ops| - 1], ops[|ops| - 1]);
            var was := Buffer(init, ch);
            && Received(ops, ch) ==
                 (if op == Receive(ch) && was != [] then Received(init, ch) + [was[0]] else Received(init, ch))
            && Published(ops, ch) == (if Reaches(ops, ch) then Published(init, ch) + [op.m] else Published(init, ch))
            && TurnedAway(ops, ch) ==
                 TurnedAway(init, ch) + (if Reaches(ops, ch) && |was| == SUBSCRIBER_BUFFER then 1 else 0)
  {
    hide Buffer, Reaches;
  }

  lemma NothingYet(ch: nat)
    ensures Buffer([], ch) == [] && Received([], ch) == [] && Published([], ch) == [] && TurnedAway([], ch) == 0
    ensures IsSubsequence<Message>([], [])
  {
  }

  /** Dropping never loses the wake-up: a subscriber with a publish it has not
      been woken for since has a message waiting. */
  lemma {:induction false} WakeUpNotLost(ops: seq<Op>, ch: nat)
    requires Pending(ops, ch)
    ensures Buffer(ops, ch) != []
  {
    BufferStep(ops, ch);
    if !Reaches(ops, ch) {
      WakeUpNotLost(ops[..|ops| - 1], ch);
    }
    hide Buffer, Reaches;
  }

  /** Once every subscription is cancelled the books are empty. */
  lemma CancelledLeavesNothing(ops: seq<Op>)
    requires forall ch: nat :: Watching(ops, ch).None?
    ensures End(ops).subs == map[]
  {
    var s := End(ops);
    forall e | e in s.subs ensures false {
      var ch :| ch in s.subs[e];
      RegisteredIffWatching(ops, ch);
      assert s.Registered(e, ch);
    }
  }
}
