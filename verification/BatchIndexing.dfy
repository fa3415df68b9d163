/** The batches of `SpimiBatchIndex` as interleaved steps: identifiers and block numbers are taken
    under a lock, and every batch indexes its documents before it publishes them. */
module BatchIndexing {
  import opened Occurrences

  datatype Phase = Collecting | Inverting(nameDone: bool, addressDone: bool) | Finished

  /** A batch of ways or nodes with `left` objects to look at and the documents gathered so far. */
  datatype Batch = Batch(left: nat, searchNodes: seq<nat>, phase: Phase)

  datatype State = State(batches: seq<Batch>, nodeIDX: nat, osmData: seq<nat>, allSearchNodes: seq<nat>, block: nat,
                         names: seq<string>)

  /** A batch skips an object (no name, a duplicate), or gives it the next identifier, or ends its loop;
      one of its two inverters writes a block or finishes; the batch publishes its documents. */
  datatype Action = Skip(i: nat) | Index(i: nat) | EndLoop(i: nat) | WriteBlock(i: nat, ofName: bool) |
    FinishInvert(i: nat, ofName: bool) |
                    Publish(i: nat)

  datatype Outcome = Blocked | Ok(s: State)

  function Field(ofName: bool): string {
    if ofName then "name" else "address"
  }

  function Digit(d: nat): char
    requires d < 10
  {
    "0123456789"[d]
  }

  /** `strconv.Itoa`. */
  function Decimal(n: nat): (s: string)
    ensures s != []
  {
    if n < 10 then [Digit(n)] else Decimal(n / 10) + [Digit(n % 10)]
  }

  function BlockName(ofName: bool, block: nat): string {
    "index_" + Field(ofName) + "_" + Decimal(block)
  }

  function Busy(b: Batch, ofName: bool): bool {
    b.phase.Inverting? && !(if ofName then b.phase.nameDone else b.phase.addressDone)
  }

  function Do(s: State, a: Action, batchSize: nat): Outcome {
    if a.i >= |s.batches| then Blocked else
    var b := s.batches[a.i];
    match a
    case Skip(i) =>
      if b.phase.Collecting? && b.left > 0 then Ok(s.(batches := s.batches[i := b.(left := b.left - 1)])) else Blocked
    case Index(i) =>
      if !b.phase.Collecting? || b.left == 0 then Blocked else
      var nodes := b.searchNodes + [s.nodeIDX];
      var b' := Batch(b.left - 1, nodes, if |nodes| == batchSize then Inverting(false, false) else Collecting);
      Ok(s.(batches := s.batches[i := b'], nodeIDX := s.nodeIDX + 1, osmData := s.osmData + [s.nodeIDX]))
    case EndLoop(i) =>
      if !b.phase.Collecting? || b.left > 0 then Blocked else
      Ok(s.(batches := s.batches[i := b.(phase := if b.searchNodes == [] then Finished else Inverting(false, false))]))
    case WriteBlock(i, ofName) =>
      if !Busy(b, ofName) then Blocked else
      Ok(s.(block := s.block + 1, names := s.names + [BlockName(ofName, s.block)]))
    case FinishInvert(i, ofName) =>
      if !Busy(b, ofName) then Blocked else
      var phase := if ofName then Inverting(true, b.phase.addressDone) else Inverting(b.phase.nameDone, true);
      Ok(s.(batches := s.batches[i := b.(phase := phase)]))
    case Publish(i) =>
      if b.phase != Inverting(true, true) then Blocked else
      Ok(s.(batches := s.batches[i := Batch(b.left, [], Collecting)],
            allSearchNodes := s.allSearchNodes + b.searchNodes))
  }

  function Init(sizes: seq<nat>): State {
    State(seq(|sizes|, i requires 0 <= i < |sizes| => Batch(sizes[i], [], Collecting)), 0, [], [], 0, [])
  }

  function Exec(s: State, run: seq<Action>, batchSize: nat): Outcome
    decreases |run|
  {
    if run == [] then Ok(s) else
    var o := Do(s, run[0], batchSize);
    if o.Ok? then Exec(o.s, run[1..], batchSize) else Blocked
  }

  // ----- what every step keeps -----

  ghost function Unpublished(bs: seq<Batch>, id: nat): nat {
    if bs == [] then 0 else Unpublished(bs[..|bs| - 1], id) + Times(bs[|bs| - 1].searchNodes, id)
  }

  lemma {:induction false} UnpublishedUpdate(bs: seq<Batch>, i: nat, b: Batch, id: nat)
    requires i < |bs|
    ensures Unpublished(bs[i := b], id) + Times(bs[i].searchNodes, id) == Unpublished(bs, id) + Times(b.searchNodes, id)
  {
    var n := |bs| - 1;
    if i < n {
      UnpublishedUpdate(bs[..n], i, b, id);
      assert bs[i := b][..n] == bs[..n][i := b];
    } else {
      assert bs[i := b][..n] == bs[..n];
    }
  }

  /** The identifiers handed out are 0, 1, 2, ... in this order; each is published or with its batch;
      block `k` has the number `k` in its name. */
  ghost predicate Inv(s: State) {
    |s.osmData| == s.nodeIDX && (forall k :: 0 <= k < |s.osmData| ==> s.osmData[k] == k) &&
    (forall id: nat :: Times(s.allSearchNodes, id) + Unpublished(s.batches, id) == Times(s.osmData, id)) &&
    |s.names| == s.block &&
    (forall k :: 0 <= k < |s.names| ==> s.names[k] == BlockName(true, k) || s.names[k] == BlockName(false, k)) &&
    (forall i :: 0 <= i < |s.batches| && s.batches[i].phase.Finished? ==> s.batches[i].searchNodes == [])
  }

  lemma CountStep(s: State, a: Action, batchSize: nat, id: nat)
    requires Do(s, a, batchSize).Ok?
    requires Times(s.allSearchNodes, id) + Unpublished(s.batches, id) == Times(s.osmData, id)
    ensures var t := Do(s, a, batchSize).s;
      Times(t.allSearchNodes, id) + Unpublished(t.batches, id) == Times(t.osmData, id)
  {
    var t := Do(s, a, batchSize).s;
    UnpublishedUpdate(s.batches, a.i, t.batches[a.i], id);
    assert a.WriteBlock? ==> s.batches[a.i := t.batches[a.i]] == s.batches;
    if a.Index? {
      TimesSnoc(s.batches[a.i].searchNodes, s.nodeIDX, id);
      TimesSnoc(s.osmData, s.nodeIDX, id);
    } else if a.Publish? {
      TimesConcat(s.allSearchNodes, s.batches[a.i].searchNodes, id);
    }
  }

  lemma InvStep(s: State, a: Action, batchSize: nat)
    requires Inv(s) && Do(s, a, batchSize).Ok?
    ensures Inv(Do(s, a, batchSize).s)
  {
    var t := Do(s, a, batchSize).s;
    forall id: nat
      ensures Times(t.allSearchNodes, id) + Unpublished(t.batches, id) == Times(t.osmData, id)
    {
      CountStep(s, a, batchSize, id);
    }
  }

  lemma {:induction false} NothingUnpublished(bs: seq<Batch>, id: nat)
    requires forall i :: 0 <= i < |bs| ==> bs[i].searchNodes == []
    ensures Unpublished(bs, id) == 0
  {
    if bs != [] { NothingUnpublished(bs[..|bs| - 1], id); }
  }

  lemma InitInv(sizes: seq<nat>)
    ensures Inv(Init(sizes))
  {
    forall id: nat
      ensures Unpublished(Init(sizes).batches, id) == 0
    {
      NothingUnpublished(Init(sizes).batches, id);
    }
  }

  lemma {:induction false} RunKeeps(s: State, run: seq<Action>, batchSize: nat)
    requires Inv(s) && Exec(s, run, batchSize).Ok?
    ensures Inv(Exec(s, run, batchSize).s)
    decreases |run|
  {
    if run != [] {
      InvStep(s, run[0], batchSize);
      RunKeeps(Do(s, run[0], batchSize).s, run[1..], batchSize);
    }
  }

  // ----- names -----

  lemma {:induction false} DecimalIsInjective(m: nat, n: nat)
    requires Decimal(m) == Decimal(n)
    ensures m == n
  {
    var a, b := Decimal(m), Decimal(n);
    assert a[|a| - 1] == Digit(m % 10) && b[|b| - 1] == Digit(n % 10);
    if m >= 10 && n >= 10 {
      assert a[..|a| - 1] == Decimal(m / 10) && b[..|b| - 1] == Decimal(n / 10);
      DecimalIsInjective(m / 10, n / 10);
    }
  }

  /** The number is in the name, so different numbers give different names whatever the fields. */
  lemma BlockNamesDiffer(f: bool, m: nat, g: bool, n: nat)
    requires BlockName(f, m) == BlockName(g, n)
    ensures m == n && f == g
  {
    var a, b := BlockName(f, m), BlockName(g, n);
    assert a[6] == Field(f)[0] && b[6] == Field(g)[0];
    var prefix := "index_" + Field(f) + "_";
    assert a[|prefix|..] == Decimal(m) && b[|prefix|..] == Decimal(n);
    DecimalIsInjective(m, n);
  }

  // ----- what every run guarantees -----

  lemma {:induction false} CountOfIds(ids: seq<nat>, n: nat, id: nat)
    requires |ids| == n && forall k :: 0 <= k < n ==> ids[k] == k
    ensures Times(ids, id) == if id < n then 1 else 0
  {
    if n > 0 {
      CountOfIds(ids[..n - 1], n - 1, id);
      assert ids == ids[..n - 1] + [ids[n - 1]];
      TimesSnoc(ids[..n - 1], ids[n - 1], id);
    }
  }

  lemma {:induction false} BatchIsUnpublished(bs: seq<Batch>, i: nat, id: nat)
    requires i < |bs|
    ensures Times(bs[i].searchNodes, id) <= Unpublished(bs, id)
  {
    if i < |bs| - 1 { BatchIsUnpublished(bs[..|bs| - 1], i, id); }
  }

  /** In every interleaving: no two blocks share a name, and the documents that a batch inverts
      together have distinct identifiers. */
  lemma BatchesAreApart(sizes: seq<nat>, run: seq<Action>, batchSize: nat)
    requires Exec(Init(sizes), run, batchSize).Ok?
    ensures var s := Exec(Init(sizes), run, batchSize).s;
      (forall j, k :: 0 <= j < k < |s.names| ==> s.names[j] != s.names[k]) &&
      (forall i, j, k :: 0 <= i < |s.batches| && 0 <= j < k < |s.batches[i].searchNodes| ==>
        s.batches[i].searchNodes[j] != s.batches[i].searchNodes[k])
  {
    InitInv(sizes);
    RunKeeps(Init(sizes), run, batchSize);
    var s := Exec(Init(sizes), run, batchSize).s;
    forall j, k | 0 <= j < k < |s.names|
      ensures s.names[j] != s.names[k]
    {
      if s.names[j] == s.names[k] {
        var f, g := s.names[j] == BlockName(true, j), s.names[k] == BlockName(true, k);
        BlockNamesDiffer(f, j, g, k);
      }
    }
    forall i, j, k | 0 <= i < |s.batches| && 0 <= j < k < |s.batches[i].searchNodes|
      ensures s.batches[i].searchNodes[j] != s.batches[i].searchNodes[k]
    {
      NoRepeats(s, i, j, k);
    }
  }

  lemma NoRepeats(s: State, i: nat, j: nat, k: nat)
    requires Inv(s) && i < |s.batches| && j < k < |s.batches[i].searchNodes|
    ensures s.batches[i].searchNodes[j] != s.batches[i].searchNodes[k]
  {
    var nodes := s.batches[i].searchNodes;
    CountOfIds(s.osmData, s.nodeIDX, nodes[j]);
    BatchIsUnpublished(s.batches, i, nodes[j]);
    if nodes[j] == nodes[k] {
      TimesTwice(nodes, j, k);
    }
  }

  /** When all batches have finished, the identifiers handed out are exactly 0 to `nodeIDX` - 1, each
      once, both in the tree's data and among the published documents. */
  lemma IdsAreExact(sizes: seq<nat>, run: seq<Action>, batchSize: nat, id: nat)
    requires Exec(Init(sizes), run, batchSize).Ok?
    requires forall i :: 0 <= i < |Exec(Init(sizes), run, batchSize).s.batches| ==>
      Exec(Init(sizes), run, batchSize).s.batches[i].phase.Finished?
    ensures var s := Exec(Init(sizes), run, batchSize).s;
      Times(s.osmData, id) == Times(s.allSearchNodes, id) == if id < s.nodeIDX then 1 else 0
  {
    InitInv(sizes);
    RunKeeps(Init(sizes), run, batchSize);
    var s := Exec(Init(sizes), run, batchSize).s;
    CountOfIds(s.osmData, s.nodeIDX, id);
    NothingUnpublished(s.batches, id);
  }

  // ----- batches are full, and the indexing ends -----

  /** A batch gathers fewer documents than its size, and is inverted when it has as many or when its objects
      are used up; it is never empty then. It has finished only after its last object. */
  ghost predicate Sized(b: Batch, batchSize: nat) {
    match b.phase
    case Collecting => |b.searchNodes| < batchSize
    case Inverting(_, _) =>
      1 <= |b.searchNodes| <= batchSize && (|b.searchNodes| == batchSize || b.left == 0)
    case Finished => b.left == 0 && b.searchNodes == []
  }

  ghost predicate AllSized(s: State, batchSize: nat) {
    forall i :: 0 <= i < |s.batches| ==> Sized(s.batches[i], batchSize)
  }

  lemma {:induction false} BatchesAreFull(s: State, run: seq<Action>, batchSize: nat)
    requires 1 <= batchSize && AllSized(s, batchSize) && Exec(s, run, batchSize).Ok?
    ensures AllSized(Exec(s, run, batchSize).s, batchSize)
    decreases |run|
  {
    if run != [] {
      BatchesAreFull(Do(s, run[0], batchSize).s, run[1..], batchSize);
    }
  }

  lemma InitSized(sizes: seq<nat>, batchSize: nat)
    requires 1 <= batchSize
    ensures AllSized(Init(sizes), batchSize)
  {
  }

  /** How many steps a batch can still take, without the writing of blocks. */
  function Work(b: Batch): nat {
    match b.phase
    case Collecting => 8 * b.left + (if b.searchNodes == [] then 1 else 5)
    case Inverting(n, a) => 8 * b.left + 2 + (if n then 0 else 1) + (if a then 0 else 1)
    case Finished => 0
  }

  /** A batch that has not finished can take a step, whatever the others do; a step that does not write a block
      leaves it with less work. */
  lemma BatchAdvances(s: State, i: nat, batchSize: nat)
    requires i < |s.batches|
    ensures !s.batches[i].phase.Finished? ==> exists a: Action :: a.i == i && !a.WriteBlock? && Do(s, a, batchSize).Ok?
    ensures forall a: Action :: a.i == i && !a.WriteBlock? && Do(s, a, batchSize).Ok? ==>
      Work(Do(s, a, batchSize).s.batches[i]) < Work(s.batches[i])
  {
    var b := s.batches[i];
    var a := match b.phase
      case Collecting => if b.left > 0 then Skip(i) else EndLoop(i)
      case Inverting(n, d) => if !n then FinishInvert(i, true) else if !d then FinishInvert(i, false) else Publish(i)
      case Finished => Skip(i);
    assert b.phase.Finished? || Do(s, a, batchSize).Ok?;
  }

  /** A name in full. */
  lemma SomeNames()
    ensures BlockName(true, 12) == "index_name_12" && BlockName(false, 0) == "index_address_0"
  {
    assert Decimal(1) == "1" && Decimal(12) == "12" && Decimal(0) == "0";
  }
}
