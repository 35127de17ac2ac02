/** Smooth weighted round robin: the Redis script and its fairness over whole runs. */
module WeightedRoundRobin {
  import opened Shared

  type Id = string

  /** The Redis hash of current weights. A field that is absent reads as 0. */
  type Hash = map<Id, int>

  /** A candidate as the load balancer sees it, and as the script receives it. */
  datatype Candidate = Candidate(id: Id, weight: real)
  datatype Arg = Arg(id: Id, weight: nat)

  const STATE_TTL_MS := 300_000

  function Field(h: Hash, id: Id): int {
    if id in h then h[id] else 0
  }

  function ToArgs(candidates: seq<Candidate>): (args: seq<Arg>)
    ensures |args| == |candidates|
    ensures forall k :: 0 <= k < |args| ==> args[k] == Arg(candidates[k].id, Clamp(candidates[k].weight))
  {
    seq(|candidates|, k requires 0 <= k < |candidates| => Arg(candidates[k].id, Clamp(candidates[k].weight)))
  }

  // ----- one script run on values -----

  /** The hash once the script's loop has gone over `args`. */
  function Bump(h: Hash, args: seq<Arg>): Hash {
    if args == [] then h
    else
      var rest, a := Bump(h, args[..|args| - 1]), args[|args| - 1];
      rest[a.id := Field(rest, a.id) + a.weight]
  }

  datatype Leader = NoLeader | Leader(id: Id, cw: int)

  /** The loop's `bestId` and `bestCw` once it has gone over `args`. */
  function Lead(h: Hash, args: seq<Arg>): (l: Leader)
    ensures l.NoLeader? <==> args == []
  {
    if args == [] then NoLeader
    else
      var l, a := Lead(h, args[..|args| - 1]), args[|args| - 1];
      var cw := Field(Bump(h, args), a.id);
      if l.NoLeader? || cw > l.cw then Leader(a.id, cw) else l
  }

  function Total(args: seq<Arg>): nat {
    if args == [] then 0 else Total(args[..|args| - 1]) + args[|args| - 1].weight
  }

  /** The hash after a whole script run. */
  function Selected(h: Hash, args: seq<Arg>): Hash
    requires args != []
  {
    var bumped, best := Bump(h, args), Lead(h, args).id;
    bumped[best := Field(bumped, best) - Total(args)]
  }

  lemma NoArgs(h: Hash)
    ensures Bump(h, []) == h && Total([]) == 0 && Lead(h, []) == NoLeader
  {
  }

  /** One turn of the script's loop. */
  lemma OneMoreArg(h: Hash, args: seq<Arg>, i: nat)
    requires i < |args|
    ensures var a, rest := args[i], Bump(h, args[..i]);
      var cw := Field(rest, a.id) + a.weight;
      && Bump(h, args[..i + 1]) == rest[a.id := cw]
      && Total(args[..i + 1]) == Total(args[..i]) + a.weight
      && Lead(h, args[..i + 1]) ==
        if Lead(h, args[..i]).NoLeader? || cw > Lead(h, args[..i]).cw then Leader(a.id, cw) else Lead(h, args[..i])
  {
    assert args[..i + 1][..i] == args[..i];
  }

  lemma {:induction false} LeadIsListed(h: Hash, args: seq<Arg>) returns (k: nat)
    requires args != []
    ensures k < |args| && Lead(h, args).id == args[k].id
  {
    hide Bump;
    var n := |args| - 1;
    k := n;
    if n > 0 && Lead(h, args).id != args[n].id {
      k := LeadIsListed(h, args[..n]);
    }
  }

  predicate DistinctIds(args: seq<Arg>) {
    forall j, k :: 0 <= j < k < |args| ==> args[j].id != args[k].id
  }

  /**
   * One fair turn, from the hash `h` to `h'`: every listed weight is raised by its own, the first
   * candidate with the greatest raised weight is chosen and pays the total, and no other field moves.
   */
  ghost predicate FairTurn(h: Hash, args: seq<Arg>, h': Hash, chosen: Id) {
    && (exists k :: 0 <= k < |args| && args[k].id == chosen && FirstGreatest(h, args, k))
    && (forall k :: 0 <= k < |args| ==>
      Field(h', args[k].id) ==
        Field(h, args[k].id) + args[k].weight - if args[k].id == chosen then Total(args) else 0)
    && (forall id :: (forall k :: 0 <= k < |args| ==> args[k].id != id) ==> Field(h', id) == Field(h, id))
  }

  ghost predicate FirstGreatest(h: Hash, args: seq<Arg>, k: nat)
    requires k < |args|
  {
    forall j :: 0 <= j < |args| ==>
      && Field(h, args[j].id) + args[j].weight <= Field(h, args[k].id) + args[k].weight
      && (j < k ==> Field(h, args[j].id) + args[j].weight < Field(h, args[k].id) + args[k].weight)
  }

  /** The hash a script started at `now` reads: nothing once the key's lease has run out. */
  function Live(fields: Hash, expiry: int, now: int): Hash {
    if now < expiry then fields else map[]
  }

  /** The Redis key holding the current weights of one candidate set. */
  class WrrKey {
    var fields: Hash
    var expiry: int

    constructor ()
      ensures fields == map[] && expiry == 0
    {
      fields, expiry := map[], 0;
    }

    /** The script: one indivisible read-modify-write of the hash. */
    method RunScript(args: seq<Arg>, now: int) returns (bestId: Id)
      requires args != []
      modifies this
      ensures bestId == Lead(Live(old(fields), old(expiry), now), args).id
      ensures fields == Selected(Live(old(fields), old(expiry), now), args)
      ensures expiry == now + 300_000
      ensures DistinctIds(args) ==> FairTurn(if now < old(expiry) then old(fields) else map[], args, fields, bestId)
    {
      hide Bump, Lead, Total;
      if now >= expiry {
        fields := map[];
      }
      ghost var h := fields;
      NoArgs(h);
      var total, best, bestCw := 0, None, 0;
      for i := 0 to |args|
        invariant fields == Bump(h, args[..i])
        invariant total == Total(args[..i])
        invariant Lead(h, args[..i]) == match best { case None => NoLeader case Some(id) => Leader(id, bestCw) }
      {
        OneMoreArg(h, args, i);
        var id, w := args[i].id, args[i].weight;
        total := total + w;
        var cw := Field(fields, id) + w;
        fields := fields[id := cw];
        if best.None? || cw > bestCw {
          best, bestCw := Some(id), cw;
        }
      }
      assert args[..|args|] == args;
      if DistinctIds(args) {
        SelectedIsFair(h, args);
      }
      bestId := best.value;
      fields := fields[bestId := Field(fields, bestId) - total];
      expiry := now + STATE_TTL_MS;
    }

    /** The strategy's `select`; `None` is the error for an empty candidate list. */
    method Select(candidates: seq<Candidate>, now: int) returns (chosen: Option<Id>)
      modifies this
      ensures candidates == [] ==> chosen.None? && fields == old(fields) && expiry == old(expiry)
      ensures candidates != [] ==>
        && chosen == Some(Lead(Live(old(fields), old(expiry), now), ToArgs(candidates)).id)
        && fields == Selected(Live(old(fields), old(expiry), now), ToArgs(candidates))
        && expiry == now + 300_000
        && (exists k :: 0 <= k < |candidates| && chosen == Some(candidates[k].id))
        && (forall k :: 0 <= k < |candidates| ==>
          ToArgs(candidates)[k] == Arg(candidates[k].id, Clamp(candidates[k].weight)))
        && (DistinctIds(ToArgs(candidates)) ==>
          FairTurn(if now < old(expiry) then old(fields) else map[], ToArgs(candidates), fields, chosen.value))
    {
      if candidates == [] {
        return None;
      }
      ghost var k := LeadIsListed(Live(fields, expiry, now), ToArgs(candidates));
      var id := RunScript(ToArgs(candidates), now);
      chosen := Some(id);
      assert chosen == Some(candidates[k].id);
    }
  }

  // ----- what one script run means -----

  lemma {:induction false} BumpField(h: Hash, args: seq<Arg>, id: Id)
    requires DistinctIds(args)
    ensures forall k :: 0 <= k < |args| && args[k].id == id ==> Field(Bump(h, args), id) == Field(h, id) + args[k].weight
    ensures (forall k :: 0 <= k < |args| ==> args[k].id != id) ==> Field(Bump(h, args), id) == Field(h, id)
  {
    if args != [] {
      BumpField(h, args[..|args| - 1], id);
    }
  }

  lemma LeadStep(h: Hash, args: seq<Arg>)
    requires DistinctIds(args) && args != []
    ensures var a, l := args[|args| - 1], Lead(h, args[..|args| - 1]);
      var cw := Field(h, a.id) + a.weight;
      Lead(h, args) == if l.NoLeader? || cw > l.cw then Leader(a.id, cw) else l
  {
    hide Bump;
    BumpField(h, args, args[|args| - 1].id);
  }

  /** The winner is the first argument whose raised weight is greatest. */
  lemma {:induction false} LeadIsFirstMaximum(h: Hash, args: seq<Arg>) returns (k: nat)
    requires DistinctIds(args) && args != []
    ensures k < |args| && Lead(h, args) == Leader(args[k].id, Field(h, args[k].id) + args[k].weight)
    ensures forall j :: 0 <= j < |args| ==> Field(h, args[j].id) + args[j].weight <= Lead(h, args).cw
    ensures forall j :: 0 <= j < k ==> Field(h, args[j].id) + args[j].weight < Lead(h, args).cw
  {
    hide Bump, Lead;
    var n := |args| - 1;
    LeadStep(h, args);
    if n == 0 {
      assert args[..n] == [];
      k := 0;
    } else {
      k := LeadIsFirstMaximum(h, args[..n]);
      if Field(h, args[n].id) + args[n].weight > Lead(h, args[..n]).cw {
        k := n;
      }
    }
  }

  /** A script run on values is a fair turn. */
  lemma {:induction false} SelectedIsFair(h: Hash, args: seq<Arg>)
    requires DistinctIds(args) && args != []
    ensures FairTurn(h, args, Selected(h, args), Lead(h, args).id)
  {
    hide Bump, Lead, Total;
    var k := LeadIsFirstMaximum(h, args);
    assert FirstGreatest(h, args, k);
    forall j | 0 <= j < |args|
      ensures Field(Bump(h, args), args[j].id) == Field(h, args[j].id) + args[j].weight
    {
      BumpField(h, args, args[j].id);
    }
    forall id | forall j :: 0 <= j < |args| ==> args[j].id != id
      ensures Field(Selected(h, args), id) == Field(h, id)
    {
      BumpField(h, args, id);
    }
  }

  // ----- sums over a candidate set -----

  function Sum(h: Hash, ids: seq<Id>): int {
    if ids == [] then 0 else Field(h, ids[0]) + Sum(h, ids[1..])
  }

  ghost predicate Distinct(ids: seq<Id>) {
    forall j, k :: 0 <= j < k < |ids| ==> ids[j] != ids[k]
  }

  lemma {:induction false} SumAdds(a: Hash, b: Hash, c: Hash, ids: seq<Id>)
    requires forall id :: id in ids ==> Field(c, id) == Field(a, id) + Field(b, id)
    ensures Sum(c, ids) == Sum(a, ids) + Sum(b, ids)
  {
    if ids != [] {
      assert forall id :: id in ids[1..] ==> id in ids;
      SumAdds(a, b, c, ids[1..]);
    }
  }

  lemma {:induction false} SumUpdate(h: Hash, ids: seq<Id>, id: Id, x: int)
    requires Distinct(ids)
    ensures Sum(h[id := x], ids) == Sum(h, ids) + if id in ids then x - Field(h, id) else 0
  {
    if ids != [] {
      SumUpdate(h, ids[1..], id, x);
      assert id in ids <==> id == ids[0] || id in ids[1..];
    }
  }

  lemma TimesOneMore(x: int, n: int)
    ensures x * n == x + x * (n - 1)
  {
  }

  lemma {:induction false} SumBounded(h: Hash, ids: seq<Id>, hi: int)
    requires forall id :: id in ids ==> Field(h, id) <= hi
    ensures Sum(h, ids) <= hi * |ids|
  {
    if ids != [] {
      assert forall id :: id in ids[1..] ==> id in ids;
      SumBounded(h, ids[1..], hi);
      TimesOneMore(hi, |ids|);
    }
  }

  /** Lower bounds on all terms bound each single term from above through the sum. */
  lemma {:induction false} TermFromSum(h: Hash, ids: seq<Id>, lo: int, id: Id)
    requires forall i :: i in ids ==> Field(h, i) >= lo
    requires id in ids
    ensures Field(h, id) + lo * (|ids| - 1) <= Sum(h, ids)
  {
    assert forall i :: i in ids[1..] ==> i in ids;
    if id == ids[0] {
      SumAtLeast(h, ids[1..], lo);
    } else {
      TermFromSum(h, ids[1..], lo, id);
      assert lo * (|ids| - 1) == lo + lo * (|ids[1..]| - 1);
    }
  }

  lemma {:induction false} SumAtLeast(h: Hash, ids: seq<Id>, lo: int)
    requires forall i :: i in ids ==> Field(h, i) >= lo
    ensures Sum(h, ids) >= lo * |ids|
  {
    if ids != [] {
      assert forall i :: i in ids[1..] ==> i in ids;
      SumAtLeast(h, ids[1..], lo);
      TimesOneMore(lo, |ids|);
    }
  }

  lemma MultisetOmit(b: seq<Id>, j: nat)
    requires j < |b|
    ensures multiset(b[..j] + b[j + 1..]) == multiset(b) - multiset{b[j]}
  {
    assert b == b[..j] + [b[j]] + b[j + 1..];
  }

  lemma PermutedTail(a: seq<Id>, b: seq<Id>) returns (j: nat)
    requires a != [] && multiset(a) == multiset(b)
    ensures j < |b| && b[j] == a[0] && multiset(a[1..]) == multiset(b[..j] + b[j + 1..])
  {
    assert a[0] in multiset(b);
    j :| j < |b| && b[j] == a[0];
    MultisetOmit(b, j);
    assert a == [a[0]] + a[1..];
  }

  lemma {:induction false} SumPermuted(h: Hash, a: seq<Id>, b: seq<Id>)
    requires multiset(a) == multiset(b)
    ensures Sum(h, a) == Sum(h, b)
  {
    hide Sum;
    if a == [] {
      assert |multiset(b)| == |b|;
    } else {
      var j := PermutedTail(a, b);
      SumPermuted(h, a[1..], b[..j] + b[j + 1..]);
      assert a[..0] + a[1..] == a[1..];
      SumOmit(h, a, 0);
      SumOmit(h, b, j);
    }
  }

  lemma {:induction false} SumOmit(h: Hash, b: seq<Id>, j: nat)
    requires j < |b|
    ensures Sum(h, b) == Field(h, b[j]) + Sum(h, b[..j] + b[j + 1..])
  {
    if j == 0 {
      assert b[..j] + b[j + 1..] == b[1..];
    } else {
      SumOmit(h, b[1..], j - 1);
      assert (b[..j] + b[j + 1..])[1..] == b[1..][..j - 1] + b[1..][j..];
    }
  }

  // ----- whole runs over one candidate set with fixed weights -----

  /** A candidate set: its ids in some fixed order, and their clamped weights. */
  datatype Fleet = Fleet(ids: seq<Id>, weights: Hash) {
    ghost predicate Valid() {
      && ids != []
      && Distinct(ids)
      && forall id :: id in ids ==> id in weights && weights[id] >= 0
    }

    ghost function T(): int {
      Sum(weights, ids)
    }
  }

  /** One selection: when it ran, and in which order the caller listed the candidates. */
  datatype Call = Call(now: int, order: seq<Id>)

  ghost predicate ValidCalls(f: Fleet, calls: seq<Call>) {
    forall k :: 0 <= k < |calls| ==> multiset(calls[k].order) == multiset(f.ids)
  }

  function ArgsFor(f: Fleet, order: seq<Id>): (args: seq<Arg>)
    requires f.Valid() && multiset(order) == multiset(f.ids)
    ensures |args| == |order|
    ensures forall k :: 0 <= k < |order| ==> args[k].id == order[k] && args[k].weight == Field(f.weights, order[k])
  {
    assert forall k :: 0 <= k < |order| ==> order[k] in multiset(order);
    seq(|order|, k requires 0 <= k < |order| => Arg(order[k], Field(f.weights, order[k])))
  }

  /** The key after a run, with the number of selections and each id's picks since the key was last absent. */
  datatype Tally = Tally(fields: Hash, expiry: int, rounds: nat, picks: Hash)

  ghost function Played(f: Fleet, calls: seq<Call>): Tally
    requires f.Valid() && ValidCalls(f, calls)
    decreases |calls|
  {
    if calls == [] then Tally(map[], 0, 0, map[])
    else
      var c, before := calls[|calls| - 1], Played(f, calls[..|calls| - 1]);
      var t := if c.now < before.expiry then before else Tally(map[], 0, 0, map[]);
      Turn(f, t, c)
  }

  ghost function Turn(f: Fleet, t: Tally, c: Call): Tally
    requires f.Valid() && multiset(c.order) == multiset(f.ids)
  {
    OrderFacts(f, c.order);
    var args := ArgsFor(f, c.order);
    var best := Lead(t.fields, args).id;
    Tally(Selected(t.fields, args), c.now + STATE_TTL_MS, t.rounds + 1, t.picks[best := Field(t.picks, best) + 1])
  }

  lemma {:induction false} OrderFacts(f: Fleet, order: seq<Id>)
    requires f.Valid() && multiset(order) == multiset(f.ids)
    ensures order != [] && Distinct(order)
    ensures DistinctIds(ArgsFor(f, order))
    ensures forall id :: id in order <==> id in f.ids
    ensures Total(ArgsFor(f, order)) == f.T()
  {
    hide Sum, Total;
    assert |order| == |multiset(order)| == |f.ids|;
    assert forall id :: id in order <==> id in multiset(order);
    StaysDistinct(order, f.ids);
    TotalIsSum(f.weights, ArgsFor(f, order), order);
    SumPermuted(f.weights, order, f.ids);
  }

  lemma StaysDistinct(order: seq<Id>, ids: seq<Id>)
    requires multiset(order) == multiset(ids) && Distinct(ids)
    ensures Distinct(order)
  {
    forall j, k | 0 <= j < k < |order|
      ensures order[j] != order[k]
    {
      if order[j] == order[k] {
        TwiceThere(order, j, k);
        DistinctMultiplicity(ids, order[j]);
      }
    }
  }

  lemma TwiceThere(order: seq<Id>, j: nat, k: nat)
    requires j < k < |order| && order[j] == order[k]
    ensures multiset(order)[order[j]] >= 2
  {
    assert order == order[..j] + [order[j]] + order[j + 1..k] + [order[k]] + order[k + 1..];
  }

  lemma {:induction false} DistinctMultiplicity(ids: seq<Id>, id: Id)
    requires Distinct(ids)
    ensures multiset(ids)[id] <= 1
  {
    if ids != [] {
      assert ids == [ids[0]] + ids[1..];
      DistinctMultiplicity(ids[1..], id);
    }
  }

  lemma {:induction false} TotalIsSum(w: Hash, args: seq<Arg>, order: seq<Id>)
    requires |args| == |order|
    requires forall k :: 0 <= k < |args| ==> args[k].id == order[k] && args[k].weight == Field(w, order[k])
    ensures Total(args) == Sum(w, order)
  {
    if args != [] {
      var n := |args| - 1;
      TotalIsSum(w, args[..n], order[..n]);
      SumOmit(w, order, n);
      assert order[..n] + order[n + 1..] == order[..n];
    }
  }

  function Occurs(chosen: seq<Id>, id: Id): nat {
    if chosen == [] then 0
    else Occurs(chosen[..|chosen| - 1], id) + if chosen[|chosen| - 1] == id then 1 else 0
  }

  /** The last `rounds` choices. */
  function Latest(chosen: seq<Id>, rounds: nat): seq<Id>
    requires rounds <= |chosen|
  {
    chosen[|chosen| - rounds..]
  }

  /** The tally counts the choices: of the last `rounds`, each id was `picks` times the one. */
  ghost predicate Counts(t: Tally, chosen: seq<Id>) {
    t.rounds <= |chosen| && forall id :: Occurs(Latest(chosen, t.rounds), id) == Field(t.picks, id)
  }

  /** A key that serves a whole run goes through the tally's states and gives its choices. */
  method Serve(f: Fleet, calls: seq<Call>) returns (key: WrrKey, chosen: seq<Id>)
    requires f.Valid() && ValidCalls(f, calls)
    ensures fresh(key) && key.fields == Played(f, calls).fields && key.expiry == Played(f, calls).expiry
    ensures |chosen| == |calls| && Counts(Played(f, calls), chosen)
  {
    hide Counts, Turn;
    key := new WrrKey();
    chosen := [];
    NothingCounted(f);
    for i := 0 to |calls|
      invariant fresh(key)
      invariant |chosen| == i && key.fields == Played(f, calls[..i]).fields && key.expiry == Played(f, calls[..i]).expiry
      invariant Counts(Played(f, calls[..i]), chosen)
    {
      assert calls[..i + 1][..i] == calls[..i];
      ghost var t := Played(f, calls[..i]);
      OrderFacts(f, calls[i].order);
      var id := key.RunScript(ArgsFor(f, calls[i].order), calls[i].now);
      ChoiceCounted(f, t, calls[i], chosen);
      chosen := chosen + [id];
    }
    assert calls[..|calls|] == calls;
  }

  lemma NothingCounted(f: Fleet)
    requires f.Valid()
    ensures Counts(Played(f, []), [])
  {
  }

  lemma OccursAppend(chosen: seq<Id>, c: Id, id: Id)
    ensures Occurs(chosen + [c], id) == Occurs(chosen, id) + if c == id then 1 else 0
  {
    assert (chosen + [c])[..|chosen|] == chosen;
  }

  lemma ChoiceCounted(f: Fleet, t: Tally, c: Call, chosen: seq<Id>)
    requires f.Valid() && multiset(c.order) == multiset(f.ids) && Counts(t, chosen)
    ensures var start := if c.now < t.expiry then t else Tally(map[], 0, 0, map[]);
      var t', best := Turn(f, start, c), Lead(Live(t.fields, t.expiry, c.now), ArgsFor(f, c.order)).id;
      && Counts(t', chosen + [best])
      && t'.fields == Selected(Live(t.fields, t.expiry, c.now), ArgsFor(f, c.order))
      && t'.expiry == c.now + STATE_TTL_MS
  {
    hide Lead, Selected, ArgsFor, Occurs;
    OrderFacts(f, c.order);
    var start := if c.now < t.expiry then t else Tally(map[], 0, 0, map[]);
    var best := Lead(start.fields, ArgsFor(f, c.order)).id;
    var t' := Turn(f, start, c);
    NothingOccurs(chosen);
    forall id
      ensures Occurs(Latest(chosen + [best], t'.rounds), id) == Field(t'.picks, id)
    {
      assert Latest(chosen + [best], t'.rounds) == Latest(chosen, start.rounds) + [best];
      OccursAppend(Latest(chosen, start.rounds), best, id);
      assert Occurs(Latest(chosen, start.rounds), id) == Field(start.picks, id);
    }
    assert start.fields == Live(t.fields, t.expiry, c.now);
    assert t'.rounds <= |chosen + [best]|;
  }

  lemma NothingOccurs(chosen: seq<Id>)
    ensures forall id :: Occurs(Latest(chosen, 0), id) == 0
  {
  }

  /**
   * The state a run can be in: the weights sum to zero, each is what it is owed
   * minus what it was paid, and none has fallen to -T.
   */
  ghost predicate Balanced(f: Fleet, t: Tally)
    requires f.Valid()
  {
    && Sum(t.fields, f.ids) == 0
    && Sum(t.picks, f.ids) == t.rounds
    && forall id :: id in f.ids ==>
      && Field(t.fields, id) == t.rounds * f.weights[id] - f.T() * Field(t.picks, id)
      && Field(t.picks, id) >= 0
      && (f.T() > 0 ==> Field(t.fields, id) >= 1 - f.T())
  }

  lemma {:induction false} SumOfNothing(ids: seq<Id>)
    ensures Sum(map[], ids) == 0
  {
    if ids != [] {
      SumOfNothing(ids[1..]);
    }
  }

  /** What one turn does to every id's current weight. */
  lemma {:induction false} TurnField(f: Fleet, t: Tally, c: Call) returns (best: Id)
    requires f.Valid() && multiset(c.order) == multiset(f.ids)
    ensures best in f.ids
    ensures Turn(f, t, c).picks == t.picks[best := Field(t.picks, best) + 1]
    ensures forall id :: id in f.ids ==>
      Field(Turn(f, t, c).fields, id) == Field(t.fields, id) + f.weights[id] - if id == best then f.T() else 0
    ensures forall id :: id in f.ids ==>
      Field(t.fields, id) + f.weights[id] <= Field(t.fields, best) + f.weights[best]
  {
    hide Bump, Lead, Total, Sum, Distinct, DistinctIds, ArgsFor;
    OrderFacts(f, c.order);
    var args := ArgsFor(f, c.order);
    var k := LeadIsFirstMaximum(t.fields, args);
    best := args[k].id;
    forall id | id in f.ids
      ensures Field(Turn(f, t, c).fields, id) == Field(t.fields, id) + f.weights[id] - if id == best then f.T() else 0
      ensures Field(t.fields, id) + f.weights[id] <= Field(t.fields, best) + f.weights[best]
    {
      var j :| 0 <= j < |c.order| && c.order[j] == id;
      BumpField(t.fields, args, id);
      BumpField(t.fields, args, best);
      assert Field(t.fields, args[j].id) + args[j].weight <= Lead(t.fields, args).cw;
    }
  }

  lemma {:induction false} TurnSums(f: Fleet, t: Tally, c: Call, best: Id)
    requires f.Valid() && multiset(c.order) == multiset(f.ids) && best in f.ids
    requires Turn(f, t, c).picks == t.picks[best := Field(t.picks, best) + 1]
    requires forall id :: id in f.ids ==>
      Field(Turn(f, t, c).fields, id) == Field(t.fields, id) + f.weights[id] - if id == best then f.T() else 0
    ensures Sum(Turn(f, t, c).fields, f.ids) == Sum(t.fields, f.ids)
    ensures Sum(Turn(f, t, c).picks, f.ids) == Sum(t.picks, f.ids) + 1
  {
    var owed := f.weights[best := f.weights[best] - f.T()];
    SumAdds(t.fields, owed, Turn(f, t, c).fields, f.ids);
    SumUpdate(f.weights, f.ids, best, f.weights[best] - f.T());
    SumUpdate(t.picks, f.ids, best, Field(t.picks, best) + 1);
  }

  lemma ShareStep(cw: int, w: int, total: int, rounds: int, picks: int, won: bool)
    requires cw == rounds * w - total * picks
    ensures cw + w - (if won then total else 0) == (rounds + 1) * w - total * if won then picks + 1 else picks
  {
  }

  /** The winner's raised weight is positive, because the raised weights sum to T. */
  lemma {:induction false} WinnerIsPositive(f: Fleet, t: Tally, best: Id)
    requires f.Valid() && Sum(t.fields, f.ids) == 0 && f.T() > 0 && best in f.ids
    requires forall id :: id in f.ids ==>
      Field(t.fields, id) + f.weights[id] <= Field(t.fields, best) + f.weights[best]
    ensures Field(t.fields, best) + f.weights[best] >= 1
  {
    var raised := map id | id in f.ids :: Field(t.fields, id) + f.weights[id];
    SumAdds(t.fields, f.weights, raised, f.ids);
    if Field(raised, best) <= 0 {
      SumBounded(raised, f.ids, 0);
      assert false;
    }
  }

  lemma {:induction false} TurnKeepsBalance(f: Fleet, t: Tally, c: Call)
    requires f.Valid() && Balanced(f, t) && multiset(c.order) == multiset(f.ids)
    ensures Balanced(f, Turn(f, t, c))
  {
    hide Selected, Bump, Lead, Total, Sum, ArgsFor, Distinct;
    var best := TurnField(f, t, c);
    TurnSums(f, t, c, best);
    var t', total := Turn(f, t, c), f.T();
    if total > 0 {
      WinnerIsPositive(f, t, best);
    }
    assert t'.rounds == t.rounds + 1;
    assert forall id :: id in f.ids ==> Field(t'.picks, id) == if id == best then Field(t.picks, id) + 1 else Field(t.picks, id);
    forall id | id in f.ids
      ensures Field(t'.fields, id) == t'.rounds * f.weights[id] - total * Field(t'.picks, id)
    {
      ShareStep(Field(t.fields, id), f.weights[id], total, t.rounds, Field(t.picks, id), id == best);
    }
  }

  lemma {:induction false} EveryRunIsBalanced(f: Fleet, calls: seq<Call>)
    requires f.Valid() && ValidCalls(f, calls)
    ensures Balanced(f, Played(f, calls))
    decreases |calls|
  {
    SumOfNothing(f.ids);
    if calls != [] {
      var before := calls[..|calls| - 1];
      EveryRunIsBalanced(f, before);
      var c := calls[|calls| - 1];
      var t := Played(f, before);
      TurnKeepsBalance(f, if c.now < t.expiry then t else Tally(map[], 0, 0, map[]), c);
    }
  }

  /**
   * After any run, whatever the argument orders, ties and pauses: with k selections since the
   * key was last absent, k*w - (n-1)*(T-1) <= T*picks < k*w + T. Hence a provider of weight
   * zero is never picked while some weight is positive.
   */
  lemma {:induction false} FairAtEveryPrefix(f: Fleet, calls: seq<Call>, id: Id)
    requires f.Valid() && ValidCalls(f, calls) && id in f.ids && f.T() > 0
    ensures var t := Played(f, calls);
      && Sum(t.fields, f.ids) == 0
      && t.rounds * f.weights[id] - (|f.ids| - 1) * (f.T() - 1) <= f.T() * Field(t.picks, id)
      && f.T() * Field(t.picks, id) < t.rounds * f.weights[id] + f.T()
      && (f.weights[id] == 0 ==> Field(t.picks, id) == 0)
  {
    EveryRunIsBalanced(f, calls);
    BalancedIsFair(f, Played(f, calls), id, f.T());
  }

  lemma {:induction false} BalancedIsFair(f: Fleet, t: Tally, id: Id, total: int)
    requires f.Valid() && id in f.ids && total == f.T() > 0 && Balanced(f, t)
    ensures t.rounds * f.weights[id] - (|f.ids| - 1) * (total - 1) <= total * Field(t.picks, id)
    ensures total * Field(t.picks, id) < t.rounds * f.weights[id] + total
    ensures f.weights[id] == 0 ==> Field(t.picks, id) == 0
  {
    TermFromSum(t.fields, f.ids, 1 - total, id);
    assert (1 - total) * (|f.ids| - 1) == -((|f.ids| - 1) * (total - 1));
    if f.weights[id] == 0 {
      BelowOneCycle(total, t.rounds, Field(t.picks, id));
    }
  }

  lemma BelowOneCycle(total: int, rounds: int, picks: int)
    requires total > 0 && total * picks < rounds * 0 + total && picks >= 0
    ensures picks == 0
  {
    assert picks >= 1 ==> total * picks >= total;
  }

  /**
   * Full-cycle exactness: whenever the number of selections since the key was last absent is
   * m*T, provider i has been picked exactly m*w_i times and every current weight is back to 0.
   */
  lemma {:induction false} FullCycleIsExact(f: Fleet, calls: seq<Call>, m: nat, id: Id)
    requires f.Valid() && ValidCalls(f, calls) && f.T() > 0
    requires Played(f, calls).rounds == m * f.T()
    requires id in f.ids
    ensures Field(Played(f, calls).picks, id) == m * f.weights[id]
    ensures Field(Played(f, calls).fields, id) == 0
  {
    EveryRunIsBalanced(f, calls);
    BalancedCycle(f, Played(f, calls), m, id, f.T());
  }

  lemma {:induction false} BalancedCycle(f: Fleet, t: Tally, m: nat, id: Id, total: int)
    requires f.Valid() && id in f.ids && total == f.T() > 0 && Balanced(f, t)
    requires t.rounds == m * total
    ensures Field(t.picks, id) == m * f.weights[id] && Field(t.fields, id) == 0
  {
    forall i | i in f.ids
      ensures Field(t.fields, i) >= 0
    {
      OwedMultiple(total, m, f.weights[i], Field(t.picks, i), Field(t.fields, i), t.rounds);
    }
    TermFromSum(t.fields, f.ids, 0, id);
    OwedMultiple(total, m, f.weights[id], Field(t.picks, id), Field(t.fields, id), t.rounds);
  }

  lemma OwedMultiple(total: int, m: int, w: int, picks: int, cw: int, rounds: int)
    requires total > 0 && rounds == m * total
    requires cw == rounds * w - total * picks && cw >= 1 - total
    ensures cw >= 0
    ensures cw == 0 ==> picks == m * w
  {
    var owed := m * w - picks;
    assert m * total * w == total * (m * w);
    assert cw == total * owed;
    assert owed <= -1 ==> total * owed <= -total;
    assert owed >= 1 ==> total * owed >= total;
  }

  /** With no positive weight the first candidate listed is picked every time. */
  lemma {:induction false} AllZeroPicksFirst(f: Fleet, t: Tally, c: Call)
    requires f.Valid() && Balanced(f, t) && multiset(c.order) == multiset(f.ids) && f.T() == 0
    ensures c.order != []
    ensures Turn(f, t, c).picks == t.picks[c.order[0] := Field(t.picks, c.order[0]) + 1]
  {
    hide Selected, Bump, Lead, Total, Sum, ArgsFor, Distinct, DistinctIds;
    OrderFacts(f, c.order);
    var args := ArgsFor(f, c.order);
    var k := LeadIsFirstMaximum(t.fields, args);
    forall j | 0 <= j < |c.order|
      ensures Field(t.fields, c.order[j]) + f.weights[c.order[j]] == 0
    {
      TermFromSum(f.weights, f.ids, 0, c.order[j]);
      assert t.rounds * 0 == 0 && 0 * Field(t.picks, c.order[j]) == 0;
    }
    assert Field(t.fields, args[0].id) + args[0].weight == Lead(t.fields, args).cw;
  }
}
