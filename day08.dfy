/** Day 8, "Haunted Wasteland": walking a network of nodes by a cyclic
    sequence of left/right instructions, alone from AAA to ZZZ, or from every
    node ending in A at once, with the answer the lcm of the arrival times. */
module Day08 {
  import opened Wrappers
  import Seqs

  /** A node name: three characters. */
  type Node = s: string | |s| == 3 witness "AAA"

  /** The network: each node's left and right successor. */
  type Network = map<Node, (Node, Node)>

  /** 'L' is the left branch (false) and 'R' the right one (true); any other
      character panics. */
  function ParseDir(c: char): (r: Option<bool>)
    ensures r.Some? <==> c == 'L' || c == 'R'
    ensures r.Some? ==> (r.value <==> c == 'R')
  {
    match c
    case 'L' => Some(false)
    case 'R' => Some(true)
    case _ => None
  }

  function ParseDirs(s: string): (r: Option<seq<bool>>)
    ensures r.Some? <==> forall i | 0 <= i < |s| :: s[i] == 'L' || s[i] == 'R'
    ensures r.Some? ==> |r.value| == |s| && forall i | 0 <= i < |s| :: (r.value[i] <==> s[i] == 'R')
  {
    if s == [] then Some([])
    else
      match ParseDirs(s[..|s| - 1])
      case None => None
      case Some(init) =>
        match ParseDir(s[|s| - 1])
        case None => None
        case Some(d) => Some(init + [d])
  }

  /** The branch taken from a node entry. */
  function Pick(branches: (Node, Node), right: bool): Node {
    if right then branches.1 else branches.0
  }

  /** Where a walker from `start` is after k steps; step k (from 1) follows
      `dirs[(k-1) mod |dirs|]`. None when a node without an entry is left,
      where indexing the map panics. */
  function Walk(nodes: Network, dirs: seq<bool>, start: Node, k: nat): Option<Node>
    requires |dirs| > 0
  {
    if k == 0 then Some(start)
    else
      match Walk(nodes, dirs, start, k - 1)
      case None => None
      case Some(n) => if n in nodes then Some(Pick(nodes[n], dirs[(k - 1) % |dirs|])) else None
  }

  /** Once a walk fails it stays failed. */
  lemma {:induction false} WalkStaysNone(nodes: Network, dirs: seq<bool>, start: Node, k: nat, m: nat)
    requires |dirs| > 0 && k <= m
    requires Walk(nodes, dirs, start, k).None?
    ensures Walk(nodes, dirs, start, m).None?
    decreases m - k
  {
    if k < m {
      WalkStaysNone(nodes, dirs, start, k, m - 1);
    }
  }

  /** The instructions repeat: a walk of |dirs| steps more is the same walk
      started from where the first |dirs| steps end. */
  lemma {:induction false} WalkPeriodic(nodes: Network, dirs: seq<bool>, start: Node, k: nat)
    requires |dirs| > 0
    requires Walk(nodes, dirs, start, |dirs|).Some?
    ensures Walk(nodes, dirs, start, |dirs| + k) == Walk(nodes, dirs, Walk(nodes, dirs, start, |dirs|).value, k)
  {
    if k > 0 {
      WalkPeriodic(nodes, dirs, start, k - 1);
      assert (|dirs| + k - 1) % |dirs| == (k - 1) % |dirs| by {
        ModShift(k - 1, |dirs|);
      }
    }
  }

  lemma ModShift(a: nat, n: nat)
    requires n > 0
    ensures (n + a) % n == a % n
  {
    ModUnique(n + a, n, a / n + 1, a % n);
  }

  /** The remainder is the unique r in [0, n) with x = q*n + r. */
  lemma ModUnique(x: int, n: int, q: int, r: int)
    requires n > 0 && x == q * n + r && 0 <= r < n
    ensures x % n == r
  {
    var q', r' := x / n, x % n;
    assert x == q' * n + r' && 0 <= r' < n;
    assert (q - q') * n == r' - r;
    if q - q' >= 1 {
      MulAtLeast(n, q - q');
    } else if q - q' <= -1 {
      MulAtLeast(n, q' - q);
    }
  }

  const Start: Node := "AAA"
  const Goal: Node := "ZZZ"

  /** No arrival at ZZZ within the first k steps. */
  predicate NotYet(nodes: Network, dirs: seq<bool>, k: nat)
    requires |dirs| > 0
  {
    forall m | 1 <= m <= k :: Walk(nodes, dirs, Start, m) != Some(Goal)
  }

  /** `puzzle1`: the number of steps from AAA to the first arrival at ZZZ,
      0 when there are no instructions (the cycle is then empty). */
  method Puzzle1(dirs: seq<bool>, nodes: Network, fuel: nat) returns (r: Outcome)
    ensures |dirs| == 0 ==> r == Done(0)
    ensures |dirs| > 0 && r.Done? ==>
      1 <= r.value <= fuel && Walk(nodes, dirs, Start, r.value) == Some(Goal) && NotYet(nodes, dirs, r.value - 1)
    ensures |dirs| > 0 && r.Panic? ==> exists k: nat | 1 <= k <= fuel ::
      Walk(nodes, dirs, Start, k).None? && NotYet(nodes, dirs, k - 1)
    ensures |dirs| > 0 && r.OutOfFuel? ==> NotYet(nodes, dirs, fuel)
  {
    if |dirs| == 0 {
      return Done(0);
    }
    var node := Start;
    var count := 0;
    while count < fuel
      invariant count <= fuel
      invariant Walk(nodes, dirs, Start, count) == Some(node)
      invariant NotYet(nodes, dirs, count)
    {
      var right := dirs[count % |dirs|];
      if node !in nodes {
        assert Walk(nodes, dirs, Start, count + 1).None?;
        return Panic;
      }
      node := Pick(nodes[node], right);
      count := count + 1;
      if node == Goal {
        return Done(count);
      }
    }
    return OutOfFuel;
  }

  // ---------------------------------------------------------------------
  // The second puzzle

  predicate EndsWith(n: Node, c: char) {
    n[2] == c
  }

  /** The first k steps from `s` never stand on a node ending in Z. */
  predicate NoArrival(nodes: Network, dirs: seq<bool>, s: Node, k: nat)
    requires |dirs| > 0
  {
    forall m | 1 <= m <= k :: Walk(nodes, dirs, s, m).Some? && !EndsWith(Walk(nodes, dirs, s, m).value, 'Z')
  }

  /** Step t is the first at which the walker from `s` stands on a node
      ending in Z. */
  predicate Arrival(nodes: Network, dirs: seq<bool>, s: Node, t: int)
    requires |dirs| > 0
  {
    t >= 1 && NoArrival(nodes, dirs, s, t - 1) &&
    Walk(nodes, dirs, s, t).Some? && EndsWith(Walk(nodes, dirs, s, t).value, 'Z')
  }

  /** The arrival time of a walker is unique. */
  lemma ArrivalUnique(nodes: Network, dirs: seq<bool>, s: Node, t1: int, t2: int)
    requires |dirs| > 0
    requires Arrival(nodes, dirs, s, t1) && Arrival(nodes, dirs, s, t2)
    ensures t1 == t2
  {
  }

  function Range(n: nat): (r: seq<nat>)
    ensures |r| == n && forall i | 0 <= i < n :: r[i] == i
  {
    if n == 0 then [] else Range(n - 1) + [n - 1]
  }

  predicate Distinct<T(==)>(s: seq<T>) {
    forall i, j | 0 <= i < j < |s| :: s[i] != s[j]
  }

  /** The start nodes of `puzzle2`: every key ending in A, each once, in the
      (unspecified) order the map yields its keys. */
  predicate Starts(nodes: Network, starts: seq<Node>) {
    Distinct(starts) &&
    (forall i | 0 <= i < |starts| :: starts[i] in nodes) &&
    (forall k | k in nodes :: EndsWith(k, 'A') <==> k in starts)
  }

  /** The walkers still out: walker j started from `starts[idx[j]]`, stands
      on `cur[j]` after `count` steps and has not yet reached a node ending in
      Z. */
  predicate Walking(nodes: Network, dirs: seq<bool>, starts: seq<Node>, idx: seq<nat>, cur: seq<Node>, count: nat)
    requires |dirs| > 0
  {
    |idx| == |cur| &&
    forall j | 0 <= j < |idx| ::
      idx[j] < |starts| && Walk(nodes, dirs, starts[idx[j]], count) == Some(cur[j]) &&
      NoArrival(nodes, dirs, starts[idx[j]], count)
  }

  /** The walkers after a step: walker j stands on `cur[j]` after `count`
      steps and reached no node ending in Z before. */
  predicate Stepped(nodes: Network, dirs: seq<bool>, starts: seq<Node>, idx: seq<nat>, cur: seq<Node>, count: nat)
    requires |dirs| > 0 && count >= 1
  {
    |idx| == |cur| &&
    forall j | 0 <= j < |idx| ::
      idx[j] < |starts| && Walk(nodes, dirs, starts[idx[j]], count) == Some(cur[j]) &&
      NoArrival(nodes, dirs, starts[idx[j]], count - 1)
  }

  /** Record m is the arrival time of the walker from `starts[order[m]]`. */
  predicate Recorded(nodes: Network, dirs: seq<bool>, starts: seq<Node>, lens: seq<int>, order: seq<nat>)
    requires |dirs| > 0
  {
    |lens| == |order| &&
    forall m | 0 <= m < |lens| :: order[m] < |starts| && Arrival(nodes, dirs, starts[order[m]], lens[m])
  }

  /** `puzzle2`: all walkers step together; after each step those standing on
      a node ending in Z leave and their step count is recorded; when none
      remain the answer is the lcm of the records. `order[m]` is the index of
      the start whose arrival `lens[m]` records. */
  method Puzzle2(dirs: seq<bool>, nodes: Network, starts: seq<Node>, fuel: nat)
    returns (r: Outcome, lens: seq<int>, ghost order: seq<nat>)
    requires Starts(nodes, starts)
    ensures |dirs| == 0 ==> r == Done(1)
    ensures |dirs| > 0 && r.Done? ==>
      r.value == LcmFold(lens) &&
      Recorded(nodes, dirs, starts, lens, order) &&
      multiset(order) == multiset(Range(|starts|))
    ensures r.Done? ==> r.value >= 1 && forall m | 0 <= m < |lens| :: Divides(lens[m], r.value)
  {
    lens, order := [], [];
    if |dirs| == 0 {
      return Done(1), lens, order;
    }
    var n := |starts|;
    var cur := starts;
    ghost var alive := Range(n);
    var count := 0;
    while count < fuel
      invariant Walking(nodes, dirs, starts, alive, cur, count)
      invariant Recorded(nodes, dirs, starts, lens, order)
      invariant multiset(alive) + multiset(order) == multiset(Range(n))
    {
      var right := dirs[count % |dirs|];
      var moved := StepAll(nodes, cur, right);
      if moved.None? {
        return Panic, lens, order;
      }
      StepWalkers(nodes, dirs, starts, alive, cur, moved.value, count);
      cur := moved.value;
      count := count + 1;
      ghost var keepAlive;
      cur, lens, keepAlive, order := Retain(nodes, dirs, starts, alive, cur, count, lens, order);
      alive := keepAlive;
      if |cur| == 0 {
        var l := LcmAll(lens);
        LcmFoldMultiple(lens);
        return Done(l), lens, order;
      }
    }
    return OutOfFuel, lens, order;
  }

  /** One step of every walker keeps their walks in step. */
  lemma StepWalkers(nodes: Network, dirs: seq<bool>, starts: seq<Node>, alive: seq<nat>, cur: seq<Node>, moved: seq<Node>, count: nat)
    requires |dirs| > 0
    requires Walking(nodes, dirs, starts, alive, cur, count)
    requires |moved| == |cur|
    requires forall j | 0 <= j < |cur| :: cur[j] in nodes && moved[j] == Pick(nodes[cur[j]], dirs[count % |dirs|])
    ensures Stepped(nodes, dirs, starts, alive, moved, count + 1)
  {
  }

  lemma StepArrives(nodes: Network, dirs: seq<bool>, s: Node, count: nat, node: Node)
    requires |dirs| > 0 && count >= 1
    requires Walk(nodes, dirs, s, count) == Some(node) && NoArrival(nodes, dirs, s, count - 1)
    ensures EndsWith(node, 'Z') ==> Arrival(nodes, dirs, s, count)
    ensures !EndsWith(node, 'Z') ==> NoArrival(nodes, dirs, s, count)
  {
  }

  lemma RecordOne(nodes: Network, dirs: seq<bool>, starts: seq<Node>, lens: seq<int>, order: seq<nat>, t: int, i: nat)
    requires |dirs| > 0 && i < |starts|
    requires Recorded(nodes, dirs, starts, lens, order) && Arrival(nodes, dirs, starts[i], t)
    ensures Recorded(nodes, dirs, starts, lens + [t], order + [i])
  {
  }

  lemma KeepOne(nodes: Network, dirs: seq<bool>, starts: seq<Node>, idx: seq<nat>, cur: seq<Node>, count: nat, i: nat, node: Node)
    requires |dirs| > 0 && i < |starts|
    requires Walking(nodes, dirs, starts, idx, cur, count)
    requires Walk(nodes, dirs, starts[i], count) == Some(node) && NoArrival(nodes, dirs, starts[i], count)
    ensures Walking(nodes, dirs, starts, idx + [i], cur + [node], count)
  {
  }

  /** The nodes `retain` keeps: those not ending in Z, in order. */
  function KeepNotZ(cur: seq<Node>): (keep: seq<Node>)
    ensures |keep| <= |cur|
  {
    if cur == [] then []
    else KeepNotZ(cur[..|cur| - 1]) + (if EndsWith(cur[|cur| - 1], 'Z') then [] else [cur[|cur| - 1]])
  }

  /** The start indices of the walkers `retain` keeps, in order. */
  function KeepIdx(alive: seq<nat>, cur: seq<Node>): seq<nat>
    requires |alive| == |cur|
  {
    if cur == [] then []
    else
      var n := |cur| - 1;
      KeepIdx(alive[..n], cur[..n]) + (if EndsWith(cur[n], 'Z') then [] else [alive[n]])
  }

  /** The start indices of the walkers `retain` drops, in order. */
  function ArrivedIdx(alive: seq<nat>, cur: seq<Node>): seq<nat>
    requires |alive| == |cur|
  {
    if cur == [] then []
    else
      var n := |cur| - 1;
      ArrivedIdx(alive[..n], cur[..n]) + (if EndsWith(cur[n], 'Z') then [alive[n]] else [])
  }

  /** One index per kept walker and one per dropped walker. */
  lemma {:induction false} IdxLengths(alive: seq<nat>, cur: seq<Node>)
    requires |alive| == |cur|
    ensures |KeepIdx(alive, cur)| == |KeepNotZ(cur)|
    ensures |ArrivedIdx(alive, cur)| == |cur| - |KeepNotZ(cur)|
    decreases |cur|
  {
    if cur != [] {
      IdxLengths(alive[..|cur| - 1], cur[..|cur| - 1]);
    }
  }

  /** The walkers `retain` keeps are still walking. */
  lemma {:induction false} KeepWalking(nodes: Network, dirs: seq<bool>, starts: seq<Node>, alive: seq<nat>, cur: seq<Node>, count: nat)
    requires |dirs| > 0 && count >= 1
    requires Stepped(nodes, dirs, starts, alive, cur, count)
    ensures Walking(nodes, dirs, starts, KeepIdx(alive, cur), KeepNotZ(cur), count)
    decreases |cur|
  {
    if cur != [] {
      var n := |cur| - 1;
      assert Stepped(nodes, dirs, starts, alive[..n], cur[..n], count);
      KeepWalking(nodes, dirs, starts, alive[..n], cur[..n], count);
      StepArrives(nodes, dirs, starts[alive[n]], count, cur[n]);
      if !EndsWith(cur[n], 'Z') {
        KeepOne(nodes, dirs, starts, KeepIdx(alive[..n], cur[..n]), KeepNotZ(cur[..n]), count, alive[n], cur[n]);
      }
    }
  }

  /** The walkers `retain` drops each arrive at step `count`. */
  lemma {:induction false} DropRecorded(nodes: Network, dirs: seq<bool>, starts: seq<Node>, alive: seq<nat>, cur: seq<Node>, count: nat,
                                        lens0: seq<int>, order0: seq<nat>)
    requires |dirs| > 0 && count >= 1
    requires Stepped(nodes, dirs, starts, alive, cur, count)
    requires Recorded(nodes, dirs, starts, lens0, order0)
    ensures Recorded(nodes, dirs, starts, lens0 + seq(|cur| - |KeepNotZ(cur)|, _ => count), order0 + ArrivedIdx(alive, cur))
    decreases |cur|
  {
    if cur != [] {
      var n := |cur| - 1;
      assert Stepped(nodes, dirs, starts, alive[..n], cur[..n], count);
      DropRecorded(nodes, dirs, starts, alive[..n], cur[..n], count, lens0, order0);
      var k := |cur[..n]| - |KeepNotZ(cur[..n])|;
      var lens := lens0 + seq(k, _ => count);
      var order := order0 + ArrivedIdx(alive[..n], cur[..n]);
      StepArrives(nodes, dirs, starts[alive[n]], count, cur[n]);
      if EndsWith(cur[n], 'Z') {
        RecordOne(nodes, dirs, starts, lens, order, count, alive[n]);
        assert seq(k, _ => count) + [count] == seq(k + 1, _ => count);
        assert lens + [count] == lens0 + seq(k + 1, _ => count);
        assert order + [alive[n]] == order0 + ArrivedIdx(alive, cur);
      } else {
        assert order == order0 + ArrivedIdx(alive, cur);
      }
    }
  }

  /** Between them, kept and dropped walkers are all the walkers. */
  lemma {:induction false} RetainSplits(alive: seq<nat>, cur: seq<Node>)
    requires |alive| == |cur|
    ensures multiset(KeepIdx(alive, cur)) + multiset(ArrivedIdx(alive, cur)) == multiset(alive)
    decreases |cur|
  {
    if cur != [] {
      var n := |cur| - 1;
      var a, c := alive[..n], cur[..n];
      RetainSplits(a, c);
      IdxSnoc(alive, cur);
      Seqs.LastSplit(alive);
      SplitsSnoc(KeepIdx(a, c), ArrivedIdx(a, c), a, alive[n], KeepIdx(alive, cur), ArrivedIdx(alive, cur));
    }
  }

  lemma IdxSnoc(alive: seq<nat>, cur: seq<Node>)
    requires |alive| == |cur| && cur != []
    ensures var n := |cur| - 1;
      var ki, ai := KeepIdx(alive[..n], cur[..n]), ArrivedIdx(alive[..n], cur[..n]);
      (KeepIdx(alive, cur) == ki && ArrivedIdx(alive, cur) == ai + [alive[n]]) ||
      (KeepIdx(alive, cur) == ki + [alive[n]] && ArrivedIdx(alive, cur) == ai)
  {
  }

  lemma SplitsSnoc(ki: seq<nat>, ai: seq<nat>, a: seq<nat>, x: nat, k2: seq<nat>, a2: seq<nat>)
    requires multiset(ki) + multiset(ai) == multiset(a)
    requires (k2 == ki && a2 == ai + [x]) || (k2 == ki + [x] && a2 == ai)
    ensures multiset(k2) + multiset(a2) == multiset(a + [x])
  {
  }

  /** The loop of the `retain` call on the walkers' nodes alone. */
  method Partition(cur: seq<Node>, count: nat, lens0: seq<int>) returns (keep: seq<Node>, lens: seq<int>)
    ensures keep == KeepNotZ(cur)
    ensures lens == lens0 + seq(|cur| - |keep|, _ => count)
  {
    keep, lens := [], lens0;
    for j := 0 to |cur|
      invariant keep == KeepNotZ(cur[..j])
      invariant lens == lens0 + seq(j - |keep|, _ => count)
    {
      assert cur[..j + 1][..j] == cur[..j];
      if EndsWith(cur[j], 'Z') {
        assert seq(j - |keep|, _ => count) + [count] == seq(j + 1 - |keep|, _ => count);
        lens := lens + [count];
      } else {
        keep := keep + [cur[j]];
      }
    }
    assert cur[..|cur|] == cur;
  }

  /** The `retain` call: walkers on a node ending in Z leave, each pushing the
      step count to `lens`. */
  method Retain(nodes: Network, dirs: seq<bool>, starts: seq<Node>, ghost alive: seq<nat>, cur: seq<Node>, count: nat,
                lens0: seq<int>, ghost order0: seq<nat>)
    returns (keep: seq<Node>, lens: seq<int>, ghost keepAlive: seq<nat>, ghost order: seq<nat>)
    requires |dirs| > 0 && count >= 1
    requires Stepped(nodes, dirs, starts, alive, cur, count)
    requires Recorded(nodes, dirs, starts, lens0, order0)
    ensures keep == KeepNotZ(cur)
    ensures lens == lens0 + seq(|cur| - |keep|, _ => count)
    ensures Walking(nodes, dirs, starts, keepAlive, keep, count)
    ensures Recorded(nodes, dirs, starts, lens, order)
    ensures multiset(keepAlive) + multiset(order) == multiset(alive) + multiset(order0)
  {
    keep, lens := Partition(cur, count, lens0);
    keepAlive := KeepIdx(alive, cur);
    order := order0 + ArrivedIdx(alive, cur);
    KeepWalking(nodes, dirs, starts, alive, cur, count);
    DropRecorded(nodes, dirs, starts, alive, cur, count, lens0, order0);
    RetainSplits(alive, cur);
  }

  /** The `iter_mut` loop: every walker takes the step; a walker on a node
      without an entry panics. */
  method StepAll(nodes: Network, cur: seq<Node>, right: bool) returns (r: Option<seq<Node>>)
    ensures r.None? <==> exists j | 0 <= j < |cur| :: cur[j] !in nodes
    ensures r.Some? ==> |r.value| == |cur|
    ensures r.Some? ==> forall j | 0 <= j < |cur| :: cur[j] in nodes && r.value[j] == Pick(nodes[cur[j]], right)
  {
    var next := cur;
    for j := 0 to |cur|
      invariant |next| == |cur|
      invariant forall i | 0 <= i < j :: cur[i] in nodes && next[i] == Pick(nodes[cur[i]], right)
    {
      if cur[j] !in nodes {
        return None;
      }
      next := next[j := Pick(nodes[cur[j]], right)];
    }
    return Some(next);
  }

  // ---------------------------------------------------------------------
  // lcm

  /** Euclid's greatest common divisor. */
  function Gcd(a: nat, b: nat): nat
    decreases b
  {
    if b == 0 then a else Gcd(b, a % b)
  }

  /** The gcd divides both arguments, with the cofactors as witnesses. */
  lemma {:induction false} GcdDivides(a: nat, b: nat) returns (p: nat, q: nat)
    requires a >= 1
    ensures Gcd(a, b) >= 1
    ensures a == Gcd(a, b) * p && b == Gcd(a, b) * q
    decreases b
  {
    if b == 0 {
      p, q := 1, 0;
    } else {
      var p', q' := GcdDivides(b, a % b);
      var d := a / b;
      DivMod(a, b);
      Cofactor(a, b, d, a % b, Gcd(b, a % b), p', q');
      p, q := d * p' + q', p';
    }
  }

  lemma DivMod(a: nat, b: nat)
    requires b >= 1
    ensures a == (a / b) * b + a % b
  {
  }

  /** One step of Euclid's cofactors: a divisor of b and of a mod b divides a. */
  lemma Cofactor(a: int, b: int, d: int, r: int, g: int, p: int, q: int)
    requires a == d * b + r && b == g * p && r == g * q
    ensures a == g * (d * p + q)
  {
    assert d * b == g * (d * p);
  }

  ghost predicate Divides(d: int, n: int) {
    exists k: int :: n == d * k
  }

  lemma {:induction false} GcdPositive(a: nat, b: nat)
    requires a >= 1
    ensures Gcd(a, b) >= 1
    decreases b
  {
    if b != 0 {
      GcdPositive(b, a % b);
    }
  }

  /** `num::integer::lcm` on positive arguments: a * (b / gcd(a, b)). */
  function Lcm(a: nat, b: nat): int
    requires a >= 1 && b >= 1
  {
    GcdPositive(a, b);
    a * (b / Gcd(a, b))
  }

  lemma DivExact(g: int, q: int)
    requires g >= 1
    ensures (g * q) / g == q
  {
    var d, r := (g * q) / g, (g * q) % g;
    assert g * q == g * d + r && 0 <= r < g;
    assert g * (q - d) == r;
    if q - d >= 1 {
      MulAtLeast(g, q - d);
    } else if q - d <= -1 {
      MulAtLeast(g, d - q);
    }
  }

  lemma MulAtLeast(g: int, k: int)
    requires g >= 1 && k >= 1
    ensures g * k >= g
  {
  }

  /** The lcm is positive and a common multiple of its arguments. */
  lemma LcmMultiple(a: nat, b: nat)
    requires a >= 1 && b >= 1
    ensures Lcm(a, b) >= 1
    ensures Divides(a, Lcm(a, b)) && Divides(b, Lcm(a, b))
  {
    var p, q := GcdDivides(a, b);
    var g := Gcd(a, b);
    DivExact(g, q);
    assert Lcm(a, b) == a * q;
    CrossMul(a, b, g, p, q);
    MulAtLeast(a, q);
  }

  lemma CrossMul(a: int, b: int, g: int, p: int, q: int)
    requires a == g * p && b == g * q
    ensures a * q == b * p
  {
    assert a * q == (g * p) * q == (g * q) * p;
  }

  lemma DividesTrans(a: int, b: int, c: int)
    requires Divides(a, b) && Divides(b, c)
    ensures Divides(a, c)
  {
    var k :| b == a * k;
    var k' :| c == b * k';
    assert c == a * (k * k');
  }

  /** `lens.into_iter().fold(1, lcm)`. */
  function LcmFold(lens: seq<int>): int {
    if lens == [] then 1
    else
      var init := LcmFold(lens[..|lens| - 1]);
      var last := lens[|lens| - 1];
      if init >= 1 && last >= 1 then Lcm(init, last) else 0
  }

  /** The fold over positive lengths is positive and divisible by each of
      them. */
  lemma {:induction false} LcmFoldMultiple(lens: seq<int>)
    requires forall i | 0 <= i < |lens| :: lens[i] >= 1
    ensures LcmFold(lens) >= 1
    ensures forall i | 0 <= i < |lens| :: Divides(lens[i], LcmFold(lens))
  {
    if lens != [] {
      var init := lens[..|lens| - 1];
      var last := lens[|lens| - 1];
      LcmFoldMultiple(init);
      var f := LcmFold(init);
      LcmMultiple(f, last);
      assert LcmFold(lens) == Lcm(f, last);
      forall i | 0 <= i < |lens| - 1 ensures Divides(lens[i], LcmFold(lens)) {
        assert Divides(init[i], f);
        DividesTrans(init[i], f, LcmFold(lens));
      }
    }
  }

  /** The fold loop computing the lcm of the records. */
  method LcmAll(lens: seq<int>) returns (l: int)
    ensures l == LcmFold(lens)
  {
    l := 1;
    for i := 0 to |lens|
      invariant l == LcmFold(lens[..i])
    {
      assert lens[..i + 1][..i] == lens[..i];
      if l >= 1 && lens[i] >= 1 {
        l := Lcm(l, lens[i]);
      } else {
        l := 0;
      }
    }
    assert lens[..|lens|] == lens;
  }

  // ---------------------------------------------------------------------
  // The second example of the puzzle statement

  /** LLR over AAA = (BBB, BBB), BBB = (AAA, ZZZ), ZZZ = (ZZZ, ZZZ). */
  const ExampleDirs: seq<bool> := [false, false, true]
  const ExampleNodes: Network := map["AAA" := ("BBB", "BBB"), "BBB" := ("AAA", "ZZZ"), "ZZZ" := ("ZZZ", "ZZZ")]

  /** The walk reaches ZZZ after six steps and not before. */
  lemma ExampleSixSteps()
    ensures Walk(ExampleNodes, ExampleDirs, Start, 6) == Some(Goal)
    ensures NotYet(ExampleNodes, ExampleDirs, 5)
  {
    var w := k => Walk(ExampleNodes, ExampleDirs, Start, k);
    assert w(1) == Some("BBB");
    assert w(2) == Some("AAA");
    assert w(3) == Some("BBB");
    assert w(4) == Some("AAA");
    assert w(5) == Some("BBB");
    assert w(6) == Some("ZZZ");
  }
}
