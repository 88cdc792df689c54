/** The barrier-phased tree reduction across a work-group, as a state machine: each work-item runs its
    own loop, and between barriers the work-items interleave in any order. */
module WorkgroupReduce {
  import opened FastDivision

  /** Head: about to test the loop condition; AtBarrier: arrived, not released;
      Reading: released, about to load the partner's value; Done: left the loop. */
  datatype Pc = Head | AtBarrier | Reading | Done

  datatype Item<T> = Item(pc: Pc, reductionIdx: nat, written: bool, value: T, barriers: nat)

  /** A workspace slot remembers the round in which it was stored. */
  datatype Slot<T> = Empty | Stored(value: T, round: nat)

  /** fault: some item loaded an empty slot or stored to a full one. */
  datatype State<T> = State(items: seq<Item<T>>, workspace: seq<Slot<T>>, fault: bool)

  function Init<T>(values: seq<T>): State<T>
  {
    State(seq(|values|, t requires 0 <= t < |values| => Item(Head, |values|, false, values[t], 0)),
          seq(|values|, _ => Empty), false)
  }

  /** An item leaves a barrier only once every item has arrived at it. */
  predicate Enabled<T>(s: State<T>, t: nat)
  {
    && t < |s.items|
    && match s.items[t].pc
       case Head => true
       case AtBarrier => forall u :: 0 <= u < |s.items| ==> s.items[u].barriers >= s.items[t].barriers
       case Reading => true
       case Done => false
  }

  /** One atomic step of item t; it makes at most one workspace access. */
  function Step<T>(op: (T, T) -> T, s: State<T>, t: nat): State<T>
    requires t < |s.items|
  {
    var i := s.items[t];
    match i.pc
    case Head =>
      if i.reductionIdx > 1 then
        var half := i.reductionIdx / 2;
        if t >= half && !i.written then
          var full := t >= |s.workspace| || s.workspace[t].Stored?;
          State(s.items[t := i.(pc := AtBarrier, reductionIdx := half, written := true, barriers := i.barriers + 1)],
                if full then s.workspace else s.workspace[t := Stored(i.value, i.barriers + 1)],
                s.fault || full)
        else
          s.(items := s.items[t := i.(pc := AtBarrier, reductionIdx := half, barriers := i.barriers + 1)])
      else
        s.(items := s.items[t := i.(pc := Done)])
    case AtBarrier =>
      s.(items := s.items[t := i.(pc := Reading)])
    case Reading =>
      if t < i.reductionIdx then
        var a := t + i.reductionIdx;
        if a < |s.workspace| && s.workspace[a].Stored? then
          s.(items := s.items[t := i.(pc := Head, value := op(i.value, s.workspace[a].value))])
        else
          s.(items := s.items[t := i.(pc := Head)], fault := true)
      else
        s.(items := s.items[t := i.(pc := Head)])
    case Done => s
  }

  /** The slot item t's next step stores to (loads from), if any. */
  predicate StoresTo<T>(s: State<T>, t: nat, a: nat)
  {
    && t < |s.items|
    && var i := s.items[t];
       i.pc == Head && i.reductionIdx > 1 && t >= i.reductionIdx / 2 && !i.written && a == t
  }

  predicate LoadsFrom<T>(s: State<T>, t: nat, a: nat)
  {
    && t < |s.items|
    && var i := s.items[t];
       i.pc == Reading && t < i.reductionIdx && a == t + i.reductionIdx
  }

  /** A step writes to the slot it stores to and to no other, and reports a store that is out of bounds or not the
      first, and a load that is out of bounds or of an empty slot. */
  lemma StepWrites<T>(op: (T, T) -> T, s: State<T>, t: nat)
    requires t < |s.items|
    ensures var w, w' := s.workspace, Step(op, s, t).workspace;
            && |w'| == |w|
            && forall a: nat :: a < |w| ==>
                 w'[a] == if StoresTo(s, t, a) && w[a].Empty? then Stored(s.items[t].value, s.items[t].barriers + 1)
                          else w[a]
    ensures Step(op, s, t).fault <==>
            || s.fault
            || (exists a: nat :: StoresTo(s, t, a) && (a >= |s.workspace| || s.workspace[a].Stored?))
            || (exists a: nat :: LoadsFrom(s, t, a) && (a >= |s.workspace| || s.workspace[a].Empty?))
  {
    var i := s.items[t];
    assert StoresTo(s, t, t) <==> i.pc == Head && i.reductionIdx > 1 && t >= i.reductionIdx / 2 && !i.written;
    assert LoadsFrom(s, t, t + i.reductionIdx) <==> i.pc == Reading && t < i.reductionIdx;
  }

  /** A step reads the slot it loads from and no other. */
  lemma StepReads<T>(op: (T, T) -> T, s: State<T>, u: State<T>, t: nat)
    requires s.items == u.items && t < |s.items| && |s.workspace| == |u.workspace|
    requires forall a: nat :: a < |s.workspace| && LoadsFrom(s, t, a) ==> s.workspace[a] == u.workspace[a]
    ensures Step(op, s, t).items == Step(op, u, t).items
  {
    var i := s.items[t];
    assert LoadsFrom(s, t, t + i.reductionIdx) <==> i.pc == Reading && t < i.reductionIdx;
  }

  predicate AllDone<T>(s: State<T>)
  {
    forall t :: 0 <= t < |s.items| ==> s.items[t].pc == Done
  }

  /** The least exponent whose power of two exceeds t. */
  function Up(t: nat): (e: nat)
    ensures t < Pow2(e)
    ensures e > 0 ==> Pow2(e - 1) <= t
  {
    if t == 0 then 0 else
      assert t == 2 * (t / 2) + t % 2;
      1 + Up(t / 2)
  }

  lemma {:induction false} Pow2Monotone(a: nat, b: nat)
    requires a <= b
    ensures Pow2(a) <= Pow2(b)
  {
    if a < b {
      Pow2Monotone(a, b - 1);
    }
  }

  lemma UpUnique(t: nat, e: nat)
    requires t < Pow2(e) && (e > 0 ==> Pow2(e - 1) <= t)
    ensures Up(t) == e
  {
    if Up(t) < e {
      Pow2Monotone(Up(t), e - 1);
    } else if Up(t) > e {
      Pow2Monotone(e, Up(t) - 1);
    }
  }

  lemma UpAtMost(t: nat, e: nat)
    ensures Up(t) <= e <==> t < Pow2(e)
  {
  }

  /** The value of the tree at node t of the level with 2^e nodes; level n holds the inputs. */
  ghost function Part<T>(op: (T, T) -> T, values: seq<T>, n: nat, t: nat, e: nat): T
    requires |values| == Pow2(n) && e <= n && t < Pow2(e)
    decreases n - e
  {
    if e == n then values[t]
    else op(Part(op, values, n, t, e + 1), Part(op, values, n, t + Pow2(e), e + 1))
  }

  function Max(a: int, b: int): int { if a > b then a else b }

  /** The level an item's value has reached. */
  function Level(n: nat, t: nat, pc: Pc, barriers: nat): int
  {
    Max(if pc == AtBarrier || pc == Reading then n - barriers + 1 else n - barriers, Up(t))
  }

  ghost predicate ItemInv<T>(op: (T, T) -> T, values: seq<T>, n: nat, s: State<T>, t: nat)
    requires |values| == Pow2(n) && |s.items| == |s.workspace| == |values| && t < |values|
  {
    ItemOk(op, values, n, s.items[t], s.workspace[t], t)
  }

  /** The same, for an item and its slot alone. */
  ghost predicate ItemOk<T>(op: (T, T) -> T, values: seq<T>, n: nat, i: Item<T>, slot: Slot<T>, t: nat)
    requires |values| == Pow2(n)
  {
    && i.barriers <= n
    && i.reductionIdx == Pow2(n - i.barriers)
    && (i.pc == AtBarrier || i.pc == Reading ==> i.barriers > 0)
    && (i.pc == Done ==> i.barriers == n)
    && (i.written <==> t >= i.reductionIdx)
    && 0 <= Level(n, t, i.pc, i.barriers) <= n
    && t < Pow2(Level(n, t, i.pc, i.barriers))
    && i.value == Part(op, values, n, t, Level(n, t, i.pc, i.barriers))
    && (if i.written then Up(t) <= n && slot == Stored(Part(op, values, n, t, Up(t)), n - Up(t) + 1) else slot == Empty)
  }

  function Passed<T>(i: Item<T>): int
  {
    if i.pc == AtBarrier then i.barriers - 1 else i.barriers
  }

  ghost predicate Inv<T>(op: (T, T) -> T, values: seq<T>, n: nat, s: State<T>)
  {
    && |values| == Pow2(n)
    && |s.items| == |s.workspace| == |values|
    && !s.fault
    && (forall t :: 0 <= t < |values| ==> ItemInv(op, values, n, s, t))
    && (forall t, u :: 0 <= t < |values| && 0 <= u < |values| ==> s.items[u].barriers >= Passed(s.items[t]))
  }

  lemma InitInv<T>(op: (T, T) -> T, values: seq<T>, n: nat)
    requires |values| == Pow2(n)
    ensures Inv(op, values, n, Init(values))
  {
    var s := Init(values);
    forall t | 0 <= t < |values|
      ensures ItemInv(op, values, n, s, t)
    {
      UpAtMost(t, n);
      assert s.items[t] == Item(Head, Pow2(n), false, values[t], 0) && s.workspace[t] == Empty;
      assert Level(n, t, Head, 0) == n;
    }
  }

  /** An item that has arrived at the barrier of a round has stored by then, if the round is its own. */
  lemma SlotFilled<T>(op: (T, T) -> T, values: seq<T>, n: nat, i: Item<T>, slot: Slot<T>, a: nat, e: nat)
    requires |values| == Pow2(n) && ItemOk(op, values, n, i, slot, a)
    requires e < n && Pow2(e) <= a < Pow2(e + 1) && n - i.barriers <= e
    ensures i.written && Up(a) == e + 1 && slot == Stored(Part(op, values, n, a, e + 1), n - e)
  {
    Pow2Monotone(n - i.barriers, e);
    UpUnique(a, e + 1);
  }

  /** The slots of round n - e lie between 2^e and 2^(e+1). */
  lemma PartnerRange(n: nat, e: nat, t: nat)
    requires e < n && t < Pow2(e)
    ensures Pow2(e) <= t + Pow2(e) < Pow2(e + 1) <= Pow2(n)
  {
    Pow2Monotone(e + 1, n);
  }

  /** The partner's slot: already stored, in this very round, by an item that will never store again. */
  lemma PartnerStored<T>(op: (T, T) -> T, values: seq<T>, n: nat, s: State<T>, t: nat, a: nat)
    requires Inv(op, values, n, s) && LoadsFrom(s, t, a)
    ensures 1 <= a < |values| && s.items[a].written
    ensures Up(a) == n - s.items[t].barriers + 1 && Up(a) <= n
    ensures s.workspace[a] == Stored(Part(op, values, n, a, Up(a)), s.items[t].barriers)
  {
    var i := s.items[t];
    assert ItemInv(op, values, n, s, t);
    var e := n - i.barriers;
    PartnerRange(n, e, t);
    assert ItemInv(op, values, n, s, a) && s.items[a].barriers >= Passed(i);
    SlotFilled(op, values, n, s.items[a], s.workspace[a], a, e);
  }

  /** An item at the head of its loop, and its slot, after its next step. */
  function NextFromHead<T>(i: Item<T>, t: nat): Item<T>
  {
    if i.reductionIdx > 1 then
      var next := i.(pc := AtBarrier, reductionIdx := i.reductionIdx / 2, barriers := i.barriers + 1);
      if Leaves(i, t) then next.(written := true) else next
    else i.(pc := Done)
  }

  /** An item of the upper half stores its value, once. */
  predicate Leaves<T>(i: Item<T>, t: nat)
  {
    i.reductionIdx > 1 && t >= i.reductionIdx / 2 && !i.written
  }

  lemma HalfOfPower(e: nat)
    requires Pow2(e) > 1
    ensures e > 0 && Pow2(e) / 2 == Pow2(e - 1)
  {
  }

  /** An item that leaves stores its value at its own level of the tree. */
  lemma LeavingItem<T>(op: (T, T) -> T, values: seq<T>, n: nat, i: Item<T>, slot: Slot<T>, t: nat)
    requires |values| == Pow2(n) && ItemOk(op, values, n, i, slot, t) && i.pc == Head && Leaves(i, t)
    ensures slot == Empty && ItemOk(op, values, n, NextFromHead(i, t), Stored(i.value, i.barriers + 1), t)
  {
    var e := n - i.barriers;
    HalfOfPower(e);
    UpUnique(t, e);
  }

  lemma StayingItem<T>(op: (T, T) -> T, values: seq<T>, n: nat, i: Item<T>, slot: Slot<T>, t: nat)
    requires |values| == Pow2(n) && ItemOk(op, values, n, i, slot, t) && i.pc == Head && !Leaves(i, t)
    ensures ItemOk(op, values, n, NextFromHead(i, t), slot, t)
  {
    var e := n - i.barriers;
    if i.reductionIdx > 1 {
      HalfOfPower(e);
    } else {
      Pow2Monotone(1, if e > 0 then e else 1);
      assert e == 0;
    }
  }

  lemma StepFromHead<T>(op: (T, T) -> T, values: seq<T>, n: nat, s: State<T>, t: nat)
    requires Inv(op, values, n, s) && Enabled(s, t) && s.items[t].pc == Head
    ensures var s' := Step(op, s, t);
            |s'.items| == |s'.workspace| == |values| && !s'.fault && ItemInv(op, values, n, s', t)
  {
    var i := s.items[t];
    assert ItemInv(op, values, n, s, t);
    if Leaves(i, t) {
      LeavingItem(op, values, n, i, s.workspace[t], t);
    } else {
      StayingItem(op, values, n, i, s.workspace[t], t);
    }
    HeadStep(op, s, t);
  }

  lemma HeadStep<T>(op: (T, T) -> T, s: State<T>, t: nat)
    requires t < |s.items| == |s.workspace| && s.items[t].pc == Head && !s.fault
    requires Leaves(s.items[t], t) ==> s.workspace[t] == Empty
    ensures var i, s' := s.items[t], Step(op, s, t);
            && |s'.items| == |s.items| && |s'.workspace| == |s.workspace| && !s'.fault
            && s'.items[t] == NextFromHead(i, t)
            && s'.workspace[t] == if Leaves(i, t) then Stored(i.value, i.barriers + 1) else s.workspace[t]
  {
  }

  /** Combining with the partner goes one level down the tree. */
  lemma PartOfRound<T>(op: (T, T) -> T, values: seq<T>, n: nat, t: nat, e: nat)
    requires |values| == Pow2(n) && e < n && t < Pow2(e)
    ensures t < Pow2(e + 1) && t + Pow2(e) < Pow2(e + 1)
    ensures Part(op, values, n, t, e) == op(Part(op, values, n, t, e + 1), Part(op, values, n, t + Pow2(e), e + 1))
  {
  }

  /** After the barrier an item of the lower half combines its value with its partner's. */
  lemma ReadingItem<T>(op: (T, T) -> T, values: seq<T>, n: nat, i: Item<T>, slot: Slot<T>, t: nat)
    requires |values| == Pow2(n) && ItemOk(op, values, n, i, slot, t) && i.pc == Reading
    ensures t >= i.reductionIdx ==> ItemOk(op, values, n, i.(pc := Head), slot, t)
    ensures t < i.reductionIdx ==>
              var e := n - i.barriers;
              && e < n && t + i.reductionIdx < Pow2(e + 1)
              && ItemOk(op, values, n,
                        i.(pc := Head, value := op(i.value, Part(op, values, n, t + i.reductionIdx, e + 1))), slot, t)
  {
    var e := n - i.barriers;
    UpAtMost(t, e);
    if t < i.reductionIdx {
      PartOfRound(op, values, n, t, e);
      assert Level(n, t, Reading, i.barriers) == e + 1 && Level(n, t, Head, i.barriers) == e;
    } else {
      assert Level(n, t, Reading, i.barriers) == Level(n, t, Head, i.barriers);
    }
  }

  /** What an item of the lower half finds in its partner's slot. */
  lemma PartnerValue<T>(op: (T, T) -> T, values: seq<T>, n: nat, s: State<T>, t: nat, a: nat, e: nat)
    requires Inv(op, values, n, s) && LoadsFrom(s, t, a) && e == n - s.items[t].barriers
    requires e < n && a < Pow2(e + 1)
    ensures a < |s.workspace| && s.workspace[a].Stored? && s.workspace[a].value == Part(op, values, n, a, e + 1)
  {
    PartnerStored(op, values, n, s, t, a);
  }

  lemma StepFromReading<T>(op: (T, T) -> T, values: seq<T>, n: nat, s: State<T>, t: nat)
    requires Inv(op, values, n, s) && Enabled(s, t) && s.items[t].pc == Reading
    ensures var s' := Step(op, s, t);
            |s'.items| == |s'.workspace| == |values| && !s'.fault && ItemInv(op, values, n, s', t)
  {
    var i := s.items[t];
    assert ItemInv(op, values, n, s, t);
    ReadingItem(op, values, n, i, s.workspace[t], t);
    if t < i.reductionIdx {
      var a, e := t + i.reductionIdx, n - i.barriers;
      PartnerValue(op, values, n, s, t, a, e);
      ReadingStep(op, s, t, Part(op, values, n, a, e + 1));
    } else {
      ReadingStep(op, s, t, i.value);
    }
  }

  lemma ReadingStep<T>(op: (T, T) -> T, s: State<T>, t: nat, other: T)
    requires t < |s.items| == |s.workspace| && s.items[t].pc == Reading && !s.fault
    requires var i := s.items[t];
             t < i.reductionIdx ==>
               var a := t + i.reductionIdx; a < |s.workspace| && s.workspace[a].Stored? && s.workspace[a].value == other
    ensures var i, s' := s.items[t], Step(op, s, t);
            && |s'.items| == |s.items| && s'.workspace == s.workspace && !s'.fault
            && s'.items[t] == if t < i.reductionIdx then i.(pc := Head, value := op(i.value, other)) else i.(pc := Head)
  {
  }

  lemma StepItemInv<T>(op: (T, T) -> T, values: seq<T>, n: nat, s: State<T>, t: nat)
    requires Inv(op, values, n, s) && Enabled(s, t)
    ensures var s' := Step(op, s, t);
            |s'.items| == |s'.workspace| == |values| && !s'.fault && ItemInv(op, values, n, s', t)
  {
    match s.items[t].pc
    case Head => StepFromHead(op, values, n, s, t);
    case AtBarrier => assert ItemInv(op, values, n, s, t);
    case Reading => StepFromReading(op, values, n, s, t);
    case Done =>
  }

  /** A step of t touches no other item, and no slot but t's own. */
  lemma StepFrame<T>(op: (T, T) -> T, values: seq<T>, n: nat, s: State<T>, t: nat, u: nat)
    requires Inv(op, values, n, s) && Enabled(s, t) && u != t && u < |values|
    requires |Step(op, s, t).items| == |Step(op, s, t).workspace| == |values|
    ensures ItemInv(op, values, n, Step(op, s, t), u)
  {
    assert ItemInv(op, values, n, s, u);
    assert Step(op, s, t).items[u] == s.items[u];
    assert Step(op, s, t).workspace[u] == s.workspace[u];
  }

  lemma StepBarriers<T>(op: (T, T) -> T, values: seq<T>, n: nat, s: State<T>, t: nat, u: nat, w: nat)
    requires Inv(op, values, n, s) && Enabled(s, t) && u < |values| && w < |values|
    ensures var s' := Step(op, s, t); s'.items[w].barriers >= Passed(s'.items[u])
  {
    assert s.items[w].barriers >= Passed(s.items[u]);
    assert ItemInv(op, values, n, s, t);
  }

  /** Every step of every item keeps the invariant. */
  lemma StepInv<T>(op: (T, T) -> T, values: seq<T>, n: nat, s: State<T>, t: nat)
    requires Inv(op, values, n, s) && Enabled(s, t)
    ensures Inv(op, values, n, Step(op, s, t))
  {
    var s' := Step(op, s, t);
    StepItemInv(op, values, n, s, t);
    forall u | 0 <= u < |values|
      ensures ItemInv(op, values, n, s', u)
    {
      if u != t {
        StepFrame(op, values, n, s, t, u);
      }
    }
    forall u, w | 0 <= u < |values| && 0 <= w < |values|
      ensures s'.items[w].barriers >= Passed(s'.items[u])
    {
      StepBarriers(op, values, n, s, t, u, w);
    }
  }

  /** No reachable state has a race: a slot about to be loaded is full, and its owner has stored for good. */
  lemma InvExcludesRaces<T>(op: (T, T) -> T, values: seq<T>, n: nat, s: State<T>)
    requires Inv(op, values, n, s)
    ensures forall t: nat, u: nat, a: nat :: t != u && StoresTo(s, t, a) ==> !StoresTo(s, u, a) && !LoadsFrom(s, u, a)
  {
    forall t: nat, u: nat, a: nat | t != u && StoresTo(s, t, a)
      ensures !StoresTo(s, u, a) && !LoadsFrom(s, u, a)
    {
      if LoadsFrom(s, u, a) {
        PartnerStored(op, values, n, s, u, a);
        assert false;
      }
    }
  }

  /** Barriers never deadlock: while some item is not done, some item can move. */
  lemma Progress<T>(op: (T, T) -> T, values: seq<T>, n: nat, s: State<T>)
    requires Inv(op, values, n, s) && !AllDone(s)
    ensures exists t: nat :: Enabled(s, t)
  {
    var t := Laggard(s, |s.items|);
    assert ItemInv(op, values, n, s, t);
    if s.items[t].pc != Done {
      assert Enabled(s, t);
    } else {
      var v: nat :| v < |s.items| && s.items[v].pc != Done;
      assert ItemInv(op, values, n, s, v);
      assert Enabled(s, v);
    }
  }

  /** An item that has arrived at the fewest barriers. */
  lemma Laggard<T>(s: State<T>, m: nat) returns (t: nat)
    requires 0 < m <= |s.items|
    ensures t < m && forall u :: 0 <= u < m ==> s.items[u].barriers >= s.items[t].barriers
  {
    t := 0;
    for k := 0 to m
      invariant t < m && forall u :: 0 <= u < k ==> s.items[u].barriers >= s.items[t].barriers
    {
      if s.items[k].barriers < s.items[t].barriers {
        t := k;
      }
    }
  }

  /** When every item has left the loop, item 0 holds the root of the tree. */
  lemma DoneValue<T>(op: (T, T) -> T, values: seq<T>, n: nat, s: State<T>)
    requires Inv(op, values, n, s) && AllDone(s)
    ensures s.items[0].value == Part(op, values, n, 0, 0)
  {
    assert ItemInv(op, values, n, s, 0);
  }

  /** Steps an item still has to take. */
  function StepsLeft<T>(n: nat, i: Item<T>): int
  {
    match i.pc
    case Head => 3 * (n - i.barriers) + 1
    case AtBarrier => 3 * (n - i.barriers) + 3
    case Reading => 3 * (n - i.barriers) + 2
    case Done => 0
  }

  ghost function Remaining<T>(n: nat, items: seq<Item<T>>): int
  {
    if items == [] then 0 else StepsLeft(n, items[0]) + Remaining(n, items[1..])
  }

  lemma {:induction false} RemainingUpdate<T>(n: nat, items: seq<Item<T>>, t: nat, i: Item<T>)
    requires t < |items|
    ensures Remaining(n, items[t := i]) == Remaining(n, items) - StepsLeft(n, items[t]) + StepsLeft(n, i)
  {
    if t == 0 {
      assert items[t := i][1..] == items[1..];
    } else {
      assert items[t := i][1..] == items[1..][t - 1 := i];
      RemainingUpdate(n, items[1..], t - 1, i);
    }
  }

  lemma {:induction false} RemainingNonNegative<T>(n: nat, items: seq<Item<T>>)
    requires forall t :: 0 <= t < |items| ==> items[t].barriers <= n
    ensures Remaining(n, items) >= 0
  {
    if items != [] {
      RemainingNonNegative(n, items[1..]);
    }
  }

  /** Every step brings the reduction nearer its end. */
  lemma StepDecreases<T>(op: (T, T) -> T, values: seq<T>, n: nat, s: State<T>, t: nat)
    requires Inv(op, values, n, s) && Enabled(s, t)
    ensures 0 <= Remaining(n, Step(op, s, t).items) < Remaining(n, s.items)
  {
    var s' := Step(op, s, t);
    assert ItemInv(op, values, n, s, t);
    RemainingUpdate(n, s.items, t, s'.items[t]);
    assert s'.items == s.items[t := s'.items[t]];
    StepInv(op, values, n, s, t);
    forall u | 0 <= u < |s'.items|
      ensures s'.items[u].barriers <= n
    {
      assert ItemInv(op, values, n, s', u);
    }
    RemainingNonNegative(n, s'.items);
  }

  /** A run: each state follows from the one before by a step of some enabled item. */
  ghost predicate IsRun<T>(op: (T, T) -> T, values: seq<T>, run: seq<State<T>>)
  {
    && |run| > 0 && run[0] == Init(values)
    && forall k :: 0 <= k < |run| - 1 ==> Successor(op, run[k], run[k + 1])
  }

  ghost predicate Successor<T>(op: (T, T) -> T, s: State<T>, s': State<T>)
  {
    exists t: nat :: Enabled(s, t) && s' == Step(op, s, t)
  }

  lemma {:induction false} RunInv<T>(op: (T, T) -> T, values: seq<T>, n: nat, run: seq<State<T>>)
    requires |values| == Pow2(n) && IsRun(op, values, run)
    ensures Inv(op, values, n, run[|run| - 1])
  {
    var k := |run| - 1;
    if k == 0 {
      InitInv(op, values, n);
    } else {
      RunInv(op, values, n, run[..k]);
      assert Successor(op, run[k - 1], run[k]);
      var t: nat :| Enabled(run[k - 1], t) && run[k] == Step(op, run[k - 1], t);
      StepInv(op, values, n, run[k - 1], t);
    }
  }

  /** Theorem: in every state of every interleaving no slot is loaded empty or stored twice, no two items
      race, every slot loaded was stored before the barrier of that round, every slot lies in [1, size),
      and the reduction can continue until item 0 holds the root of the tree. */
  lemma EveryRunIsSafe<T>(op: (T, T) -> T, values: seq<T>, n: nat, run: seq<State<T>>)
    requires |values| == Pow2(n) && IsRun(op, values, run)
    ensures var s := run[|run| - 1];
            && |s.items| == |s.workspace| == |values|
            && !s.fault
            && (forall t: nat, u: nat, a: nat :: t != u && StoresTo(s, t, a) ==>
                  !StoresTo(s, u, a) && !LoadsFrom(s, u, a))
            && (forall t: nat, a: nat :: LoadsFrom(s, t, a) ==>
                  1 <= a < |values| && s.workspace[a].Stored? && s.workspace[a].round <= s.items[t].barriers)
            && (forall t: nat, a: nat :: StoresTo(s, t, a) ==> 1 <= a < |values| && s.workspace[a] == Empty)
            && (AllDone(s) ==> s.items[0].value == Part(op, values, n, 0, 0))
            && (!AllDone(s) ==> exists t: nat :: Enabled(s, t))
  {
    var s := run[|run| - 1];
    RunInv(op, values, n, run);
    InvExcludesRaces(op, values, n, s);
    forall t: nat, a: nat | LoadsFrom(s, t, a)
      ensures 1 <= a < |values| && s.workspace[a].Stored? && s.workspace[a].round <= s.items[t].barriers
    {
      PartnerStored(op, values, n, s, t, a);
    }
    forall t: nat, a: nat | StoresTo(s, t, a)
      ensures 1 <= a < |values| && s.workspace[a] == Empty
    {
      assert ItemInv(op, values, n, s, t);
    }
    if AllDone(s) {
      DoneValue(op, values, n, s);
    } else {
      Progress(op, values, n, s);
    }
  }

  /** Runs the items to completion, at each point moving any one that is able to move. */
  method Reduce<T>(op: (T, T) -> T, values: seq<T>, ghost n: nat) returns (r: T)
    requires |values| == Pow2(n)
    ensures r == Part(op, values, n, 0, 0)
  {
    var s := Init(values);
    InitInv(op, values, n);
    while !AllDone(s)
      invariant Inv(op, values, n, s)
      decreases Remaining(n, s.items)
    {
      Progress(op, values, n, s);
      var t: nat :| t < |s.items| && Enabled(s, t);
      StepInv(op, values, n, s, t);
      StepDecreases(op, values, n, s, t);
      s := Step(op, s, t);
    }
    DoneValue(op, values, n, s);
    r := s.items[0].value;
  }

  /** The sequential reduction the tree stands for. */
  ghost function Fold<T>(op: (T, T) -> T, values: seq<T>): T
    requires |values| > 0
  {
    if |values| == 1 then values[0] else op(Fold(op, values[..|values| - 1]), values[|values| - 1])
  }

  predicate Associates<T(==)>(op: (T, T) -> T, a: T, b: T, c: T)
  {
    op(op(a, b), c) == op(a, op(b, c))
  }

  predicate Commutes<T(==)>(op: (T, T) -> T, a: T, b: T)
  {
    op(a, b) == op(b, a)
  }

  ghost predicate AssociativeCommutative<T(!new)>(op: (T, T) -> T)
  {
    && (forall a, b, c :: Associates(op, a, b, c))
    && (forall a, b :: Commutes(op, a, b))
  }

  lemma {:induction false} FoldConcat<T(!new)>(op: (T, T) -> T, a: seq<T>, b: seq<T>)
    requires AssociativeCommutative(op) && |a| > 0 && |b| > 0
    ensures Fold(op, a + b) == op(Fold(op, a), Fold(op, b))
  {
    var last := b[|b| - 1];
    assert (a + b)[|a + b| - 1] == last;
    assert (a + b)[..|a + b| - 1] == a + b[..|b| - 1];
    if |b| == 1 {
      assert a + b[..0] == a;
    } else {
      FoldConcat(op, a, b[..|b| - 1]);
      assert Associates(op, Fold(op, a), Fold(op, b[..|b| - 1]), last);
    }
  }

  ghost predicate Pairwise<T>(op: (T, T) -> T, a: seq<T>, b: seq<T>, c: seq<T>)
  {
    |a| == |b| == |c| && forall i :: 0 <= i < |a| ==> c[i] == op(a[i], b[i])
  }

  lemma {:induction false} FoldPairwise<T(!new)>(op: (T, T) -> T, a: seq<T>, b: seq<T>, c: seq<T>)
    requires AssociativeCommutative(op) && |c| > 0 && Pairwise(op, a, b, c)
    ensures Fold(op, c) == op(Fold(op, a), Fold(op, b))
  {
    var k := |a| - 1;
    if k > 0 {
      FoldPairwise(op, a[..k], b[..k], c[..k]);
      Exchange(op, Fold(op, a[..k]), Fold(op, b[..k]), a[k], b[k]);
    }
  }

  lemma Exchange<T(!new)>(op: (T, T) -> T, p: T, q: T, r: T, s: T)
    requires AssociativeCommutative(op)
    ensures op(op(p, q), op(r, s)) == op(op(p, r), op(q, s))
  {
    assert Associates(op, p, q, op(r, s)) && Associates(op, p, r, op(q, s));
    assert Associates(op, q, r, s) && Associates(op, r, q, s) && Commutes(op, q, r);
  }

  /** All the tree nodes of one level. */
  ghost function LevelValues<T>(op: (T, T) -> T, values: seq<T>, n: nat, e: nat): seq<T>
    requires |values| == Pow2(n) && e <= n
  {
    seq(Pow2(e), t requires 0 <= t < Pow2(e) => Part(op, values, n, t, e))
  }

  lemma LevelHalves<T>(op: (T, T) -> T, values: seq<T>, n: nat, e: nat)
    requires |values| == Pow2(n) && e < n
    ensures var above := LevelValues(op, values, n, e + 1);
            |above| == 2 * Pow2(e) && Pairwise(op, above[..Pow2(e)], above[Pow2(e)..], LevelValues(op, values, n, e))
  {
  }

  lemma FoldHalves<T(!new)>(op: (T, T) -> T, above: seq<T>, half: nat, c: seq<T>)
    requires AssociativeCommutative(op) && 0 < half < |above| && |c| > 0
    requires Pairwise(op, above[..half], above[half..], c)
    ensures Fold(op, c) == Fold(op, above)
  {
    assert above == above[..half] + above[half..];
    FoldConcat(op, above[..half], above[half..]);
    FoldPairwise(op, above[..half], above[half..], c);
  }

  lemma {:induction false} LevelFold<T(!new)>(op: (T, T) -> T, values: seq<T>, n: nat, e: nat)
    requires |values| == Pow2(n) && e <= n && AssociativeCommutative(op)
    ensures Fold(op, LevelValues(op, values, n, e)) == Fold(op, values)
    decreases n - e
  {
    if e == n {
      assert LevelValues(op, values, n, e) == values;
    } else {
      LevelFold(op, values, n, e + 1);
      LevelHalves(op, values, n, e);
      FoldHalves(op, LevelValues(op, values, n, e + 1), Pow2(e), LevelValues(op, values, n, e));
    }
  }

  /** Theorem: for an associative and commutative operation the tree is the fold of all the values. */
  lemma TreeIsFold<T(!new)>(op: (T, T) -> T, values: seq<T>, n: nat)
    requires |values| == Pow2(n) && AssociativeCommutative(op)
    ensures Part(op, values, n, 0, 0) == Fold(op, values)
  {
    LevelFold(op, values, n, 0);
    assert LevelValues(op, values, n, 0) == [Part(op, values, n, 0, 0)];
  }
}
