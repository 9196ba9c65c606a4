/** Day 20, "Pulse Propagation": a network of broadcast, flip-flop and
    conjunction modules passes high and low pulses through a first-in
    first-out queue after each press of a button. Modules are numbered
    0 to 63 (module 0 receives the button's pulse) and a set of module
    numbers is a 64-bit set. */
module Day20 {
  import opened Wrappers

  datatype Kind = Broadcast | FlipFlop | Conjunction

  /** A set of module numbers, as a 64-bit set holds. */
  type Set64 = s: set<nat> | forall i | i in s :: i < 64

  /** A module: its kind and the numbers of its destinations. */
  type Node = (Kind, Set64)

  /** At most 64 modules, and every destination is a module. */
  predicate Declared(input: seq<Node>) {
    |input| <= 64 && forall i, d | 0 <= i < |input| && d in input[i].1 :: d < |input|
  }

  /** Moreover there is a module 0, which the button's pulse reaches. */
  predicate WellFormed(input: seq<Node>) {
    0 < |input| && Declared(input)
  }

  /** The modules of the first n that send to d. */
  function Senders(input: seq<Node>, n: nat, d: nat): (r: Set64)
    requires n <= |input| <= 64
    ensures forall i | i in r :: i < n
    ensures forall i | 0 <= i < n :: i in r <==> d in input[i].1
  {
    set i: nat | i < n && d in input[i].1
  }

  /** `refs[d]`: the modules that send to d. */
  function Refs(input: seq<Node>): (refs: seq<Set64>)
    requires |input| <= 64
    ensures |refs| == 64
  {
    seq(64, (d: int) requires 0 <= d => Senders(input, |input|, d))
  }

  lemma SendersNext(input: seq<Node>, n: nat, d: nat)
    requires n < |input| <= 64
    ensures Senders(input, n + 1, d) == Senders(input, n, d) + (if d in input[n].1 then {n} else {})
  {
  }

  /** `build_refs`: for every module, add it to the entry of each of its
      destinations, in increasing order. */
  method BuildRefs(input: seq<Node>) returns (refs: array<Set64>)
    requires |input| <= 64
    ensures fresh(refs) && refs.Length == 64
    ensures refs[..] == Refs(input)
    ensures forall i, d | 0 <= i < |input| && 0 <= d < 64 :: i in refs[d] <==> d in input[i].1
  {
    refs := new Set64[64](_ => {});
    for i := 0 to |input|
      invariant forall e | 0 <= e < 64 :: refs[e] == Senders(input, i, e)
    {
      for d := 0 to 64
        invariant forall e | 0 <= e < 64 :: refs[e] == Senders(input, if e < d then i + 1 else i, e)
      {
        SendersNext(input, i, d);
        if d in input[i].1 {
          refs[d] := refs[d] + {i};
        }
      }
    }
    assert forall d | 0 <= d < 64 :: refs[..][d] == Refs(input)[d];
  }

  /** A pulse in the queue: its sender, its receivers and its level. */
  datatype Pulse = Pulse(src: nat, ids: Set64, high: bool)

  /** The button sends a low pulse to module 0. */
  const Button: Pulse := Pulse(0, {0}, false)

  /** What a press works on: the flip-flops that are on, what each
      conjunction remembers as high, the queue, the low and high pulses
      delivered and the senders of high pulses to the watched module. */
  datatype State = State(flipflops: Set64, conj: seq<Set64>, queue: seq<Pulse>, lows: nat, highs: nat, watch: Set64)

  /** Every queued pulse comes from a module number and goes to modules. */
  predicate QueueOk(input: seq<Node>, q: seq<Pulse>) {
    forall j | 0 <= j < |q| :: q[j].src < 64 && forall id | id in q[j].ids :: id < |input|
  }

  predicate Shaped(input: seq<Node>, refs: seq<Set64>, st: State) {
    WellFormed(input) && |refs| == 64 && |st.conj| == 64 && QueueOk(input, st.queue)
  }

  /** Delivering one pulse of level `high` from `src` to module `id`. */
  function Deliver(input: seq<Node>, refs: seq<Set64>, watchConj: nat, st: State, src: nat, id: nat, high: bool): (r: State)
    requires Shaped(input, refs, st) && src < 64 && id < |input|
    ensures Shaped(input, refs, r)
  {
    var st := if high then st.(highs := st.highs + 1) else st.(lows := st.lows + 1);
    var dst := input[id].1;
    match input[id].0
    case Broadcast =>
      if dst != {} then st.(queue := st.queue + [Pulse(id, dst, high)]) else st
    case FlipFlop =>
      if high then st
      else
        var ff := if id in st.flipflops then st.flipflops - {id} else st.flipflops + {id};
        st.(flipflops := ff, queue := st.queue + [Pulse(id, dst, id in ff)])
    case Conjunction =>
      var watch := if high && id == watchConj then st.watch + {src} else st.watch;
      var mem := if high then st.conj[id] + {src} else st.conj[id] - {src};
      st.(watch := watch, conj := st.conj[id := mem], queue := st.queue + [Pulse(id, dst, !(refs[id] <= mem))])
  }

  /** Delivering a pulse to each of its receivers numbered k or more, in
      increasing order. */
  function DeliverFrom(input: seq<Node>, refs: seq<Set64>, watchConj: nat, st: State, p: Pulse, k: nat): (r: State)
    requires Shaped(input, refs, st) && p.src < 64 && k <= 64 && forall id | id in p.ids :: id < |input|
    ensures Shaped(input, refs, r)
    decreases 64 - k
  {
    if k == 64 then st
    else
      var next := if k in p.ids then Deliver(input, refs, watchConj, st, p.src, k, p.high) else st;
      DeliverFrom(input, refs, watchConj, next, p, k + 1)
  }

  /** Taking pulses off the front of the queue until it is empty, at most
      `fuel` of them. */
  function Run(input: seq<Node>, refs: seq<Set64>, watchConj: nat, st: State, fuel: nat): (r: Option<State>)
    requires Shaped(input, refs, st)
    ensures r.Some? ==> Shaped(input, refs, r.value) && r.value.queue == []
    decreases fuel
  {
    if st.queue == [] then Some(st)
    else if fuel == 0 then None
    else
      var p := st.queue[0];
      Run(input, refs, watchConj, DeliverFrom(input, refs, watchConj, st.(queue := st.queue[1..]), p, 0), fuel - 1)
  }

  function Start(flipflops: Set64, conj: seq<Set64>): State {
    State(flipflops, conj, [Button], 0, 0, {})
  }

  /** `press_button`, processing at most `fuel` queued pulses: the counts
      of low and high pulses, the senders of high pulses to `watchConj`,
      and the flip-flop and conjunction memories after the press. */
  method PressButton(input: seq<Node>, refs: seq<Set64>, flipflops: Set64, conjunctions: array<Set64>, watchConj: nat, fuel: nat)
    returns (done: bool, lows: nat, highs: nat, watch: Set64, ff: Set64)
    requires WellFormed(input) && |refs| == 64 && conjunctions.Length == 64
    modifies conjunctions
    ensures var r := Run(input, refs, watchConj, Start(flipflops, old(conjunctions[..])), fuel);
      done == r.Some? && (done ==> r.value == State(ff, conjunctions[..], [], lows, highs, watch))
    ensures done ==> watch == WatchedSenders(input, watchConj,
      Taken(input, refs, watchConj, Start(flipflops, old(conjunctions[..])), fuel))
  {
    watch := {};
    ff := flipflops;
    lows, highs := 0, 0;
    var pulses := [Button];
    var f := fuel;
    ghost var goal := Run(input, refs, watchConj, Start(flipflops, old(conjunctions[..])), fuel);
    while pulses != []
      invariant Shaped(input, refs, State(ff, conjunctions[..], pulses, lows, highs, watch))
      invariant goal == Run(input, refs, watchConj, State(ff, conjunctions[..], pulses, lows, highs, watch), f)
      decreases f
    {
      if f == 0 {
        return false, lows, highs, watch, ff;
      }
      var p := pulses[0];
      pulses := pulses[1..];
      ghost var before := State(ff, conjunctions[..], pulses, lows, highs, watch);
      for id := 0 to 64
        invariant Shaped(input, refs, State(ff, conjunctions[..], pulses, lows, highs, watch))
        invariant DeliverFrom(input, refs, watchConj, before, p, 0) ==
          DeliverFrom(input, refs, watchConj, State(ff, conjunctions[..], pulses, lows, highs, watch), p, id)
      {
        if id in p.ids {
          ghost var cur := State(ff, conjunctions[..], pulses, lows, highs, watch);
          ff, lows, highs, watch, pulses := DeliverOne(input, refs, watchConj, p.src, id, p.high, ff, conjunctions, lows, highs, watch, pulses);
          assert State(ff, conjunctions[..], pulses, lows, highs, watch) == Deliver(input, refs, watchConj, cur, p.src, id, p.high);
        }
      }
      f := f - 1;
    }
    done := true;
    RunWatch(input, refs, watchConj, Start(flipflops, old(conjunctions[..])), fuel);
  }

  /** One delivery of `press_button`, on the press's own variables. */
  method DeliverOne(input: seq<Node>, refs: seq<Set64>, watchConj: nat, src: nat, id: nat, high: bool,
                    ff0: Set64, conjunctions: array<Set64>, lows0: nat, highs0: nat, watch0: Set64, pulses0: seq<Pulse>)
    returns (ff: Set64, lows: nat, highs: nat, watch: Set64, pulses: seq<Pulse>)
    requires Shaped(input, refs, State(ff0, conjunctions[..], pulses0, lows0, highs0, watch0)) && src < 64 && id < |input|
    modifies conjunctions
    ensures State(ff, conjunctions[..], pulses, lows, highs, watch) ==
      Deliver(input, refs, watchConj, State(ff0, old(conjunctions[..]), pulses0, lows0, highs0, watch0), src, id, high)
  {
    ff, lows, highs, watch, pulses := ff0, lows0, highs0, watch0, pulses0;
    if high {
      highs := highs + 1;
    } else {
      lows := lows + 1;
    }
    var dst := input[id].1;
    match input[id].0 {
      case Broadcast =>
        if dst != {} {
          pulses := pulses + [Pulse(id, dst, high)];
        }
      case FlipFlop =>
        if !high {
          if id in ff {
            ff := ff - {id};
          } else {
            ff := ff + {id};
          }
          pulses := pulses + [Pulse(id, dst, id in ff)];
        }
      case Conjunction =>
        if high {
          if id == watchConj {
            watch := watch + {src};
          }
          conjunctions[id] := conjunctions[id] + {src};
        } else {
          conjunctions[id] := conjunctions[id] - {src};
        }
        pulses := pulses + [Pulse(id, dst, !(refs[id] <= conjunctions[id]))];
    }
  }

  /** A delivery counts exactly one pulse, of its own level. */
  lemma DeliverCounts(input: seq<Node>, refs: seq<Set64>, watchConj: nat, st: State, src: nat, id: nat, high: bool)
    requires Shaped(input, refs, st) && src < 64 && id < |input|
    ensures var r := Deliver(input, refs, watchConj, st, src, id, high);
      r.lows == st.lows + (if high then 0 else 1) && r.highs == st.highs + (if high then 1 else 0)
  {
  }

  /** A flip-flop ignores a high pulse; a low pulse toggles it alone and
      makes it send its new state. */
  lemma FlipFlopToggles(input: seq<Node>, refs: seq<Set64>, watchConj: nat, st: State, src: nat, id: nat, high: bool)
    requires Shaped(input, refs, st) && src < 64 && id < |input| && input[id].0 == FlipFlop
    ensures var r := Deliver(input, refs, watchConj, st, src, id, high);
      if high then r.flipflops == st.flipflops && r.queue == st.queue
      else
        && (id in r.flipflops <==> id !in st.flipflops)
        && r.flipflops - {id} == st.flipflops - {id}
        && r.queue == st.queue + [Pulse(id, input[id].1, id in r.flipflops)]
  {
  }

  /** A broadcast module passes the pulse on unchanged, unless it has no
      destinations. */
  lemma BroadcastForwards(input: seq<Node>, refs: seq<Set64>, watchConj: nat, st: State, src: nat, id: nat, high: bool)
    requires Shaped(input, refs, st) && src < 64 && id < |input| && input[id].0 == Broadcast
    ensures var r := Deliver(input, refs, watchConj, st, src, id, high);
      r.queue == st.queue + (if input[id].1 == {} then [] else [Pulse(id, input[id].1, high)])
      && r.flipflops == st.flipflops && r.conj == st.conj && r.watch == st.watch
  {
  }

  /** Only a high pulse to the watched module, a conjunction, adds its
      sender to the watch set. */
  lemma DeliverWatch(input: seq<Node>, refs: seq<Set64>, watchConj: nat, st: State, src: nat, id: nat, high: bool)
    requires Shaped(input, refs, st) && src < 64 && id < |input|
    ensures Deliver(input, refs, watchConj, st, src, id, high).watch ==
      st.watch + (if high && id == watchConj && input[id].0 == Conjunction then {src} else {})
  {
  }

  /** A pulse is watched when it is high and one of its receivers is the
      watched module, a conjunction. */
  predicate Watched(input: seq<Node>, watchConj: nat, p: Pulse) {
    p.high && watchConj in p.ids && watchConj < |input| && input[watchConj].0 == Conjunction
  }

  /** Delivering a pulse to its receivers from k on adds its sender to the
      watch set exactly when it is watched and the watched module is not
      yet passed. */
  lemma {:induction false} DeliverFromWatch(input: seq<Node>, refs: seq<Set64>, watchConj: nat, st: State, p: Pulse, k: nat)
    requires Shaped(input, refs, st) && p.src < 64 && k <= 64 && forall id | id in p.ids :: id < |input|
    ensures DeliverFrom(input, refs, watchConj, st, p, k).watch ==
      st.watch + (if Watched(input, watchConj, p) && k <= watchConj then {p.src} else {})
    decreases 64 - k
  {
    if k < 64 {
      var next := if k in p.ids then Deliver(input, refs, watchConj, st, p.src, k, p.high) else st;
      if k in p.ids {
        DeliverWatch(input, refs, watchConj, st, p.src, k, p.high);
      }
      DeliverFromWatch(input, refs, watchConj, next, p, k + 1);
    }
  }

  /** The pulses `Run` takes off the queue, in order. */
  function Taken(input: seq<Node>, refs: seq<Set64>, watchConj: nat, st: State, fuel: nat): (ps: seq<Pulse>)
    requires Shaped(input, refs, st)
    ensures |ps| <= fuel
    ensures st.queue != [] && fuel > 0 ==> ps != [] && ps[0] == st.queue[0]
    decreases fuel
  {
    if st.queue == [] || fuel == 0 then []
    else
      var p := st.queue[0];
      [p] + Taken(input, refs, watchConj, DeliverFrom(input, refs, watchConj, st.(queue := st.queue[1..]), p, 0), fuel - 1)
  }

  /** The senders of the watched pulses among ps. */
  function WatchedSenders(input: seq<Node>, watchConj: nat, ps: seq<Pulse>): set<nat> {
    set j | 0 <= j < |ps| && Watched(input, watchConj, ps[j]) :: ps[j].src
  }

  /** After a finished run the watch set has gained exactly the senders of
      the high pulses delivered to the watched conjunction. */
  lemma {:induction false} RunWatch(input: seq<Node>, refs: seq<Set64>, watchConj: nat, st: State, fuel: nat)
    requires Shaped(input, refs, st)
    requires Run(input, refs, watchConj, st, fuel).Some?
    ensures Run(input, refs, watchConj, st, fuel).value.watch ==
      st.watch + WatchedSenders(input, watchConj, Taken(input, refs, watchConj, st, fuel))
    decreases fuel
  {
    if st.queue != [] {
      var p := st.queue[0];
      var st' := st.(queue := st.queue[1..]);
      var next := DeliverFrom(input, refs, watchConj, st', p, 0);
      DeliverFromWatch(input, refs, watchConj, st', p, 0);
      RunWatch(input, refs, watchConj, next, fuel - 1);
      var rest := Taken(input, refs, watchConj, next, fuel - 1);
      assert Taken(input, refs, watchConj, st, fuel) == [p] + rest;
      WatchedSendersCons(input, watchConj, p, rest);
    }
  }

  lemma WatchedSendersCons(input: seq<Node>, watchConj: nat, p: Pulse, ps: seq<Pulse>)
    ensures WatchedSenders(input, watchConj, [p] + ps) ==
      (if Watched(input, watchConj, p) then {p.src} else {}) + WatchedSenders(input, watchConj, ps)
  {
    var qs := [p] + ps;
    forall x ensures x in WatchedSenders(input, watchConj, qs) <==>
      x in (if Watched(input, watchConj, p) then {p.src} else {}) + WatchedSenders(input, watchConj, ps)
    {
      if x in WatchedSenders(input, watchConj, qs) {
        var j :| 0 <= j < |qs| && Watched(input, watchConj, qs[j]) && qs[j].src == x;
        if j > 0 {
          assert ps[j - 1] == qs[j];
        }
      }
      if x in WatchedSenders(input, watchConj, ps) {
        var j :| 0 <= j < |ps| && Watched(input, watchConj, ps[j]) && ps[j].src == x;
        assert qs[j + 1] == ps[j];
      }
      if Watched(input, watchConj, p) && x == p.src {
        assert qs[0] == p;
      }
    }
  }

  /** A pulse travels along a wire: from a module to its destinations, or
      from the button to module 0. */
  predicate Wired(input: seq<Node>, p: Pulse) {
    p == Button || (p.src < |input| && p.ids == input[p.src].1)
  }

  /** What stays true between presses: a conjunction remembers only
      modules that send to it, and only flip-flops are ever on. */
  predicate Memory(input: seq<Node>, refs: seq<Set64>, flipflops: Set64, conj: seq<Set64>)
    requires |refs| == 64 && |conj| == 64
  {
    && (forall i | 0 <= i < 64 :: conj[i] <= refs[i])
    && (forall i | i in flipflops :: i < |input| && input[i].0 == FlipFlop)
  }

  /** What a press keeps true: the memory as between presses, the watched
      senders send to the watched module, and every queued pulse travels
      along a wire. */
  predicate Consistent(input: seq<Node>, refs: seq<Set64>, watchConj: nat, st: State)
    requires |refs| == 64 && |st.conj| == 64 && watchConj < 64
  {
    && Memory(input, refs, st.flipflops, st.conj)
    && st.watch <= refs[watchConj]
    && forall j | 0 <= j < |st.queue| :: Wired(input, st.queue[j])
  }

  /** The network's conditions for the invariant: the senders are the
      true ones and the button does not feed a conjunction. */
  predicate Network(input: seq<Node>, refs: seq<Set64>, watchConj: nat) {
    WellFormed(input) && refs == Refs(input) && input[0].0 != Conjunction && watchConj < 64
  }

  lemma {:induction false} DeliverConsistent(input: seq<Node>, refs: seq<Set64>, watchConj: nat, st: State, src: nat, id: nat, high: bool)
    requires Network(input, refs, watchConj) && Shaped(input, refs, st) && Consistent(input, refs, watchConj, st)
    requires id < |input| && ((src < |input| && id in input[src].1) || (src == 0 && id == 0))
    ensures Consistent(input, refs, watchConj, Deliver(input, refs, watchConj, st, src, id, high))
  {
    var r := Deliver(input, refs, watchConj, st, src, id, high);
    if input[id].0 == Conjunction {
      assert id != 0 || src != 0;
      assert src in refs[id];
      forall i | 0 <= i < 64 ensures r.conj[i] <= refs[i] {
        if i != id {
          assert r.conj[i] == st.conj[i];
        }
      }
    }
    forall j | 0 <= j < |r.queue| ensures Wired(input, r.queue[j]) {
      if j < |st.queue| {
        assert r.queue[j] == st.queue[j];
      }
    }
  }

  lemma {:induction false} DeliverFromConsistent(input: seq<Node>, refs: seq<Set64>, watchConj: nat, st: State, p: Pulse, k: nat)
    requires Network(input, refs, watchConj) && Shaped(input, refs, st) && Consistent(input, refs, watchConj, st)
    requires Wired(input, p) && k <= 64
    ensures Consistent(input, refs, watchConj, DeliverFrom(input, refs, watchConj, st, p, k))
    decreases 64 - k
  {
    if k < 64 {
      var next := st;
      if k in p.ids {
        DeliverConsistent(input, refs, watchConj, st, p.src, k, p.high);
        next := Deliver(input, refs, watchConj, st, p.src, k, p.high);
      }
      DeliverFromConsistent(input, refs, watchConj, next, p, k + 1);
    }
  }

  /** A whole press keeps the invariant. */
  lemma {:induction false} RunConsistent(input: seq<Node>, refs: seq<Set64>, watchConj: nat, st: State, fuel: nat)
    requires Network(input, refs, watchConj) && Shaped(input, refs, st) && Consistent(input, refs, watchConj, st)
    ensures var r := Run(input, refs, watchConj, st, fuel);
      r.Some? ==> Consistent(input, refs, watchConj, r.value)
    decreases fuel
  {
    if st.queue != [] && fuel > 0 {
      var p := st.queue[0];
      var rest := st.(queue := st.queue[1..]);
      assert Consistent(input, refs, watchConj, rest) by {
        forall j | 0 <= j < |rest.queue| ensures Wired(input, rest.queue[j]) {
          assert rest.queue[j] == st.queue[j + 1];
        }
      }
      DeliverFromConsistent(input, refs, watchConj, rest, p, 0);
      RunConsistent(input, refs, watchConj, DeliverFrom(input, refs, watchConj, rest, p, 0), fuel - 1);
    }
  }

  /** Where the invariant holds, a conjunction sends a low pulse exactly
      when it remembers every one of its inputs as high. */
  lemma ConjunctionSendsLow(input: seq<Node>, refs: seq<Set64>, watchConj: nat, st: State, src: nat, id: nat, high: bool)
    requires Network(input, refs, watchConj) && Shaped(input, refs, st) && Consistent(input, refs, watchConj, st)
    requires src < |input| && id in input[src].1 && input[id].0 == Conjunction
    ensures var r := Deliver(input, refs, watchConj, st, src, id, high);
      && r.conj[id] == (if high then st.conj[id] + {src} else st.conj[id] - {src})
      && r.queue == st.queue + [Pulse(id, input[id].1, r.conj[id] != Senders(input, |input|, id))]
  {
    assert src in refs[id];
  }

  /** The state between presses: the flip-flops that are on, the
      conjunction memories and the low and high pulses counted so far. */
  datatype Between = Between(flipflops: Set64, conj: seq<Set64>, lows: nat, highs: nat)

  /** No conjunction remembering anything. */
  function NoMemory(): (r: seq<Set64>)
    ensures |r| == 64 && forall i | 0 <= i < 64 :: r[i] == {}
  {
    seq(64, (_: int) => {})
  }

  /** `let mut conjunctions = [0u64; 64]`. */
  method NewMemory() returns (conjunctions: array<Set64>)
    ensures fresh(conjunctions) && conjunctions[..] == NoMemory()
  {
    conjunctions := new Set64[64](_ => {});
    assert conjunctions[..] == NoMemory();
  }

  /** No press recorded for any module. */
  function NoneSeen(): (r: seq<Option<nat>>)
    ensures |r| == 64 && forall i | 0 <= i < 64 :: r[i] == None
  {
    seq(64, (_: int) => None)
  }

  /** One press from the state between presses, processing at most
      `fuel` pulses. */
  function Press(input: seq<Node>, refs: seq<Set64>, watchConj: nat, b: Between, fuel: nat): (r: Option<Between>)
    requires WellFormed(input) && |refs| == 64 && |b.conj| == 64
    ensures r.Some? ==> |r.value.conj| == 64
  {
    match Run(input, refs, watchConj, Start(b.flipflops, b.conj), fuel)
    case None => None
    case Some(st) => Some(Between(st.flipflops, st.conj, b.lows + st.lows, b.highs + st.highs))
  }

  /** n presses of the button from everything off. */
  function Presses(input: seq<Node>, refs: seq<Set64>, watchConj: nat, n: nat, fuel: nat): (r: Option<Between>)
    requires WellFormed(input) && |refs| == 64
    ensures r.Some? ==> |r.value.conj| == 64
  {
    if n == 0 then Some(Between({}, NoMemory(), 0, 0))
    else
      match Presses(input, refs, watchConj, n - 1, fuel)
      case None => None
      case Some(b) => Press(input, refs, watchConj, b, fuel)
  }

  /** A press keeps the memory invariant. */
  lemma PressKeeps(input: seq<Node>, refs: seq<Set64>, watchConj: nat, b: Between, fuel: nat)
    requires Network(input, refs, watchConj) && |b.conj| == 64 && Memory(input, refs, b.flipflops, b.conj)
    ensures var r := Press(input, refs, watchConj, b, fuel);
      r.Some? ==> Memory(input, refs, r.value.flipflops, r.value.conj)
  {
    var st := Start(b.flipflops, b.conj);
    assert Consistent(input, refs, watchConj, st);
    RunConsistent(input, refs, watchConj, st, fuel);
  }

  /** Between presses the invariant holds. */
  lemma {:induction false} PressesConsistent(input: seq<Node>, refs: seq<Set64>, watchConj: nat, n: nat, fuel: nat)
    requires Network(input, refs, watchConj)
    ensures var r := Presses(input, refs, watchConj, n, fuel);
      r.Some? ==> Memory(input, refs, r.value.flipflops, r.value.conj)
  {
    if n > 0 {
      PressesConsistent(input, refs, watchConj, n - 1, fuel);
      var prev := Presses(input, refs, watchConj, n - 1, fuel);
      if prev.Some? {
        PressKeeps(input, refs, watchConj, prev.value, fuel);
      }
    }
  }

  /** `puzzle1`: the low count times the high count after 1000 presses;
      without modules the first delivery, to module 0, panics. */
  function Answer1(input: seq<Node>, fuel: nat): Option<int>
    requires Declared(input)
  {
    if |input| == 0 then None
    else
      var r := Presses(input, Refs(input), 0, 1000, fuel);
      if r.None? then None else Some(r.value.lows * r.value.highs)
  }

  method Puzzle1(input: seq<Node>, fuel: nat) returns (r: Option<int>)
    requires Declared(input)
    ensures r == Answer1(input, fuel)
    ensures |input| == 0 ==> r.None?
  {
    if |input| == 0 {
      return None;
    }
    var refsArray := BuildRefs(input);
    var b := PressMany(input, refsArray[..], 1000, fuel);
    if b.None? {
      return None;
    }
    r := Some(b.value.lows * b.value.highs);
  }

  /** The button loop of `puzzle1`, pressing n times. */
  method PressMany(input: seq<Node>, refs: seq<Set64>, n: nat, fuel: nat) returns (b: Option<Between>)
    requires WellFormed(input) && |refs| == 64
    ensures b == Presses(input, refs, 0, n, fuel)
  {
    var conjunctions := NewMemory();
    var flipflops: Set64 := {};
    var lows, highs := 0, 0;
    for k := 0 to n
      invariant Presses(input, refs, 0, k, fuel) == Some(Between(flipflops, conjunctions[..], lows, highs))
    {
      var done;
      done, flipflops, lows, highs := CountPress(input, refs, flipflops, conjunctions, lows, highs, fuel, k);
      if !done {
        PressesStuck(input, refs, 0, k + 1, n, fuel);
        return None;
      }
    }
    b := Some(Between(flipflops, conjunctions[..], lows, highs));
  }

  /** Press `n + 1` of `puzzle1`, adding its pulses to the counts. */
  method CountPress(input: seq<Node>, refs: seq<Set64>, flipflops: Set64, conjunctions: array<Set64>,
                    lows0: nat, highs0: nat, fuel: nat, ghost n: nat)
    returns (done: bool, ff: Set64, lows: nat, highs: nat)
    requires WellFormed(input) && |refs| == 64 && conjunctions.Length == 64
    requires Presses(input, refs, 0, n, fuel) == Some(Between(flipflops, conjunctions[..], lows0, highs0))
    modifies conjunctions
    ensures var r := Presses(input, refs, 0, n + 1, fuel);
      done == r.Some? && (done ==> r.value == Between(ff, conjunctions[..], lows, highs))
  {
    PressesSucc(input, refs, 0, n, fuel);
    var l, h, watch;
    done, l, h, watch, ff := PressButton(input, refs, flipflops, conjunctions, 0, fuel);
    lows, highs := lows0 + l, highs0 + h;
  }

  lemma PressesSucc(input: seq<Node>, refs: seq<Set64>, watchConj: nat, n: nat, fuel: nat)
    requires WellFormed(input) && |refs| == 64
    ensures var prev := Presses(input, refs, watchConj, n, fuel);
      Presses(input, refs, watchConj, n + 1, fuel) == if prev.None? then None else Press(input, refs, watchConj, prev.value, fuel)
  {
  }

  /** Once a press runs out of fuel, so do all later counts. */
  lemma {:induction false} PressesStuck(input: seq<Node>, refs: seq<Set64>, watchConj: nat, n: nat, m: nat, fuel: nat)
    requires WellFormed(input) && |refs| == 64 && n <= m && Presses(input, refs, watchConj, n, fuel).None?
    ensures Presses(input, refs, watchConj, m, fuel).None?
    decreases m - n
  {
    if n < m {
      PressesSucc(input, refs, watchConj, n, fuel);
      PressesStuck(input, refs, watchConj, n + 1, m, fuel);
    }
  }

  /** The least member of a set, if any. */
  function Least(s: Set64, k: nat): (r: Option<nat>)
    requires k <= 64
    ensures r.None? <==> forall i | i in s :: i < k
    ensures r.Some? ==> r.value in s && k <= r.value < 64 && forall i | i in s && k <= i :: r.value <= i
    decreases 64 - k
  {
    if k == 64 then None else if k in s then Some(k) else Least(s, k + 1)
  }

  /** For each watched module, the last press in which it sent a high pulse. */
  function Record(lastHigh: seq<Option<nat>>, watch: Set64, counter: nat): (r: seq<Option<nat>>)
    requires |lastHigh| == 64
    ensures |r| == 64
  {
    seq(64, i requires 0 <= i < 64 => if i in watch then Some(counter) else lastHigh[i])
  }

  predicate AllSeen(lastHigh: seq<Option<nat>>, lastRefs: Set64)
    requires |lastHigh| == 64
  {
    forall i | i in lastRefs :: lastHigh[i].Some?
  }

  /** The presses of `puzzle2` from press `counter` on, at most `presses`
      more: stop after the press in which every module feeding the watched
      one has sent it a high pulse at least once. */
  function Search(input: seq<Node>, refs: seq<Set64>, lastConj: nat, flipflops: Set64, conj: seq<Set64>,
                  lastHigh: seq<Option<nat>>, counter: nat, presses: nat, fuel: nat): (r: Option<seq<Option<nat>>>)
    requires WellFormed(input) && |refs| == 64 && |conj| == 64 && |lastHigh| == 64 && lastConj < 64
    ensures r.Some? ==> |r.value| == 64 && AllSeen(r.value, refs[lastConj])
    decreases presses
  {
    var r := Run(input, refs, lastConj, Start(flipflops, conj), fuel);
    if r.None? then None
    else
      var lh := Record(lastHigh, r.value.watch, counter);
      if AllSeen(lh, refs[lastConj]) then Some(lh)
      else if presses == 0 then None
      else Search(input, refs, lastConj, r.value.flipflops, r.value.conj, lh, counter + 1, presses - 1, fuel)
  }

  /** Every counter recorded is a press number, from the first on, and at
      most `last`, which bounds the presses the search may make. */
  lemma {:induction false} SearchCounters(input: seq<Node>, refs: seq<Set64>, lastConj: nat, flipflops: Set64, conj: seq<Set64>,
                                          lastHigh: seq<Option<nat>>, counter: nat, presses: nat, fuel: nat, last: nat)
    requires WellFormed(input) && |refs| == 64 && |conj| == 64 && |lastHigh| == 64 && lastConj < 64
    requires counter >= 1 && counter + presses <= last
    requires forall i | 0 <= i < 64 && lastHigh[i].Some? :: 1 <= lastHigh[i].value < counter
    ensures var r := Search(input, refs, lastConj, flipflops, conj, lastHigh, counter, presses, fuel);
      r.Some? ==> forall i | 0 <= i < 64 && r.value[i].Some? :: 1 <= r.value[i].value <= last
    decreases presses
  {
    var r := Run(input, refs, lastConj, Start(flipflops, conj), fuel);
    if r.Some? {
      var lh := Record(lastHigh, r.value.watch, counter);
      assert forall i | 0 <= i < 64 && lh[i].Some? :: 1 <= lh[i].value <= counter;
      if presses > 0 && !AllSeen(lh, refs[lastConj]) {
        SearchStep(input, refs, lastConj, flipflops, conj, lastHigh, counter, presses, fuel, r.value);
        SearchCounters(input, refs, lastConj, r.value.flipflops, r.value.conj, lh, counter + 1, presses - 1, fuel, last);
      }
    }
  }

  /** The product of the recorded counters of the modules numbered k or more. */
  function Product(lastHigh: seq<Option<nat>>, lastRefs: Set64, k: nat): nat
    requires |lastHigh| == 64 && k <= 64 && AllSeen(lastHigh, lastRefs)
    decreases 64 - k
  {
    if k == 64 then 1
    else (if k in lastRefs then lastHigh[k].value else 1) * Product(lastHigh, lastRefs, k + 1)
  }

  lemma {:induction false} ProductPositive(lastHigh: seq<Option<nat>>, lastRefs: Set64, k: nat)
    requires |lastHigh| == 64 && k <= 64 && AllSeen(lastHigh, lastRefs)
    requires forall i | i in lastRefs :: lastHigh[i].value >= 1
    ensures Product(lastHigh, lastRefs, k) >= 1
    decreases 64 - k
  {
    if k < 64 {
      ProductPositive(lastHigh, lastRefs, k + 1);
    }
  }

  /** `puzzle2`: watch the smallest-numbered sender to the last module,
      and multiply the last press numbers in which each of its own senders
      sent it a high pulse. Without modules `input.len() - 1` underflows
      and panics. */
  function Answer2(input: seq<Node>, presses: nat, fuel: nat): Option<int>
    requires Declared(input)
  {
    if |input| == 0 then None
    else
      var refs := Refs(input);
      var lastConj := Least(refs[|input| - 1], 0);
      if lastConj.None? then None
      else
        var lh := Search(input, refs, lastConj.value, {}, NoMemory(), NoneSeen(), 1, presses, fuel);
        if lh.None? then None else Some(Product(lh.value, refs[lastConj.value], 0))
  }

  /** A found answer is a product of press numbers, so at least 1. */
  lemma Answer2Positive(input: seq<Node>, presses: nat, fuel: nat)
    requires Declared(input)
    ensures var r := Answer2(input, presses, fuel); r.Some? ==> r.value >= 1
  {
    var refs := Refs(input);
    var lastConj := if |input| == 0 then None else Least(refs[|input| - 1], 0);
    if lastConj.Some? {
      var none := NoneSeen();
      SearchCounters(input, refs, lastConj.value, {}, NoMemory(), none, 1, presses, fuel, 1 + presses);
      var lh := Search(input, refs, lastConj.value, {}, NoMemory(), none, 1, presses, fuel);
      if lh.Some? {
        ProductPositive(lh.value, refs[lastConj.value], 0);
      }
    }
  }

  /** The loop of `puzzle2` over the watched senders of one press. */
  method RecordWatch(lastHigh0: seq<Option<nat>>, watch: Set64, counter: nat) returns (lastHigh: seq<Option<nat>>)
    requires |lastHigh0| == 64
    ensures lastHigh == Record(lastHigh0, watch, counter)
  {
    lastHigh := lastHigh0;
    for i := 0 to 64
      invariant |lastHigh| == 64
      invariant forall j | 0 <= j < 64 :: lastHigh[j] == if j < i && j in watch then Some(counter) else lastHigh0[j]
    {
      if i in watch {
        lastHigh := lastHigh[i := Some(counter)];
      }
    }
  }

  /** One press of the search, unfolded. */
  lemma SearchStep(input: seq<Node>, refs: seq<Set64>, lastConj: nat, flipflops: Set64, conj: seq<Set64>,
                   lastHigh: seq<Option<nat>>, counter: nat, presses: nat, fuel: nat, st: State)
    requires WellFormed(input) && |refs| == 64 && |conj| == 64 && |lastHigh| == 64 && lastConj < 64
    requires Run(input, refs, lastConj, Start(flipflops, conj), fuel) == Some(st)
    ensures var lh := Record(lastHigh, st.watch, counter);
      Search(input, refs, lastConj, flipflops, conj, lastHigh, counter, presses, fuel) ==
        if AllSeen(lh, refs[lastConj]) then Some(lh)
        else if presses == 0 then None
        else Search(input, refs, lastConj, st.flipflops, st.conj, lh, counter + 1, presses - 1, fuel)
  {
  }

  method Puzzle2(input: seq<Node>, presses: nat, fuel: nat) returns (r: Option<int>)
    requires Declared(input)
    ensures r == Answer2(input, presses, fuel)
    ensures |input| == 0 ==> r.None?
  {
    if |input| == 0 {
      return None;
    }
    var refsArray := BuildRefs(input);
    var refs := refsArray[..];
    var least := Least(refs[|input| - 1], 0);
    if least.None? {
      return None;
    }
    var lastConj := least.value;
    var conjunctions := NewMemory();
    var flipflops: Set64 := {};
    var lastHigh := NoneSeen();
    var counter := 1;
    var left := presses;
    ghost var found := Search(input, refs, lastConj, {}, NoMemory(), NoneSeen(), 1, presses, fuel);
    while true
      invariant |lastHigh| == 64
      invariant found == Search(input, refs, lastConj, flipflops, conjunctions[..], lastHigh, counter, left, fuel)
      decreases left
    {
      var finished;
      finished, r, flipflops, lastHigh, counter, left := SearchPress(input, refs, lastConj, flipflops, conjunctions, lastHigh, counter, left, fuel);
      if finished {
        return;
      }
    }
  }

  /** One press of the loop of `puzzle2`: either the search ends here, with
      its answer, or it goes on from the next press. */
  method SearchPress(input: seq<Node>, refs: seq<Set64>, lastConj: nat, flipflops: Set64, conjunctions: array<Set64>,
                     lastHigh0: seq<Option<nat>>, counter0: nat, left0: nat, fuel: nat)
    returns (finished: bool, r: Option<int>, ff: Set64, lastHigh: seq<Option<nat>>, counter: nat, left: nat)
    requires WellFormed(input) && |refs| == 64 && conjunctions.Length == 64 && |lastHigh0| == 64 && lastConj < 64
    modifies conjunctions
    ensures |lastHigh| == 64
    ensures var s := Search(input, refs, lastConj, flipflops, old(conjunctions[..]), lastHigh0, counter0, left0, fuel);
      && (finished ==> r == if s.None? then None else Some(Product(s.value, refs[lastConj], 0)))
      && (!finished ==> left < left0 && s == Search(input, refs, lastConj, ff, conjunctions[..], lastHigh, counter, left, fuel))
  {
    counter, left := counter0, left0;
    ghost var conj0 := conjunctions[..];
    var done, lows, highs, watch;
    done, lows, highs, watch, ff := PressButton(input, refs, flipflops, conjunctions, lastConj, fuel);
    lastHigh := lastHigh0;
    if !done {
      return true, None, ff, lastHigh, counter, left;
    }
    ghost var st := Run(input, refs, lastConj, Start(flipflops, conj0), fuel).value;
    SearchStep(input, refs, lastConj, flipflops, conj0, lastHigh0, counter, left, fuel, st);
    lastHigh := RecordWatch(lastHigh0, watch, counter);
    if AllSeen(lastHigh, refs[lastConj]) {
      return true, Some(Product(lastHigh, refs[lastConj], 0)), ff, lastHigh, counter, left;
    }
    if left == 0 {
      return true, None, ff, lastHigh, counter, left;
    }
    finished, r := false, None;
    counter, left := counter + 1, left - 1;
  }
}
