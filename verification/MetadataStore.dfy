/** The metadata store: payload lists are merged in batches whose size follows the measured processing time. */
module MetadataStore {
  import opened PayloadCodec
  import opened MetadataMerge

  const MIN_BATCH_SIZE: nat := 10
  const MAX_BATCH_SIZE: nat := 1000

  // ---------------------------------------------------------------- batch sizes

  predicate InBounds(batchSize: nat) {
    MIN_BATCH_SIZE <= batchSize <= MAX_BATCH_SIZE
  }

  function Clamp(size: int): (r: nat)
    ensures InBounds(r)
    ensures MIN_BATCH_SIZE <= size <= MAX_BATCH_SIZE ==> r == size
  {
    if size < MIN_BATCH_SIZE then MIN_BATCH_SIZE else if size > MAX_BATCH_SIZE then MAX_BATCH_SIZE else size
  }

  /** The size after a full batch that took `coeff` times the reference time. */
  function Adjusted(batchSize: nat, coeff: real): nat
    requires InBounds(batchSize)
  {
    Clamp(if coeff < 0.8 then batchSize + batchSize
          else if coeff > 1.0 then (batchSize as real / coeff).Floor
          else batchSize)
  }

  lemma Quotient(b: real, c: real)
    requires b >= 0.0 && c > 1.0
    ensures 0.0 <= b / c <= b && b / c * c == b
  {
    var q := b / c;
    assert q * c == b;
    assert q <= b by {
      assert q * (c - 1.0) >= 0.0;
    }
  }

  /** A fast batch never makes the next one smaller, a slow one never larger, and none leaves the bounds. */
  lemma AdjustedFollowsTime(batchSize: nat, coeff: real)
    requires InBounds(batchSize)
    ensures InBounds(Adjusted(batchSize, coeff))
    ensures coeff < 0.8 ==> batchSize <= Adjusted(batchSize, coeff) <= 2 * batchSize
    ensures coeff < 0.8 && batchSize < MAX_BATCH_SIZE ==> batchSize < Adjusted(batchSize, coeff)
    ensures 0.8 <= coeff <= 1.0 ==> Adjusted(batchSize, coeff) == batchSize
    ensures coeff > 1.0 ==> Adjusted(batchSize, coeff) <= batchSize
  {
    if coeff > 1.0 {
      Quotient(batchSize as real, coeff);
    }
  }

  /** After a slow batch the next one, at the same pace, takes no longer than the reference time unless it is minimal. */
  lemma SlowBatchMeetsTarget(batchSize: nat, coeff: real)
    requires InBounds(batchSize) && coeff > 1.0
    ensures var next := Adjusted(batchSize, coeff);
            next == MIN_BATCH_SIZE || next as real * coeff <= batchSize as real
  {
    Quotient(batchSize as real, coeff);
    var q := batchSize as real / coeff;
    var next := Adjusted(batchSize, coeff);
    if next != MIN_BATCH_SIZE {
      assert next as real <= q;
      assert next as real * coeff <= q * coeff;
    }
  }

  /**
   * The rule in full: a fast batch doubles the size and a slow one divides it by its time, rounded down, and what
   * leaves the bounds is set to the bound.
   */
  lemma AdjustedIs(batchSize: nat, coeff: real)
    requires InBounds(batchSize)
    ensures coeff < 0.8 ==> Adjusted(batchSize, coeff) == if 2 * batchSize > 1000 then 1000 else 2 * batchSize
    ensures coeff > 1.0 ==>
      var next := Adjusted(batchSize, coeff);
      if next > 10 then next as real * coeff <= batchSize as real < (next + 1) as real * coeff
      else batchSize as real < 11.0 * coeff
  {
    if coeff > 1.0 {
      Quotient(batchSize as real, coeff);
      Slowed(batchSize, batchSize as real / coeff, coeff);
    }
  }

  lemma Slowed(batchSize: nat, q: real, c: real)
    requires InBounds(batchSize) && c > 1.0 && 0.0 <= q <= batchSize as real && q * c == batchSize as real
    ensures var next := Clamp(q.Floor);
            if next > 10 then next as real * c <= batchSize as real < (next + 1) as real * c
            else batchSize as real < 11.0 * c
  {
    var next := Clamp(q.Floor);
    if next > 10 {
      Between(next as real, q, (next + 1) as real, c, batchSize as real);
    } else {
      Between(0.0, q, 11.0, c, batchSize as real);
    }
  }

  lemma Between(lo: real, q: real, hi: real, c: real, b: real)
    requires c > 0.0 && lo <= q < hi && q * c == b
    ensures lo * c <= b < hi * c
  {
    assert (q - lo) * c >= 0.0;
    assert (hi - q) * c > 0.0;
  }

  /** Only full batches change the size. */
  function SizeAfter(batchSize: nat, processed: nat, coeff: real): (r: nat)
    requires InBounds(batchSize)
    ensures InBounds(r)
  {
    if processed == batchSize then Adjusted(batchSize, coeff) else batchSize
  }

  function BatchEnd(batchSize: nat, n: nat, start: nat): nat {
    if start + batchSize < n then start + batchSize else n
  }

  /** A run over `n` payloads: the batch size it starts with, and the measured time of every batch. */
  datatype Run = Run(batchSize: nat, n: nat, coeffs: nat -> real) {

    /** Where batch number `k` starts; all later batches are empty once this is `n`. */
    function Start(k: nat): (start: nat)
      requires InBounds(batchSize)
      ensures start <= n
      decreases k, 0
    {
      if k == 0 then 0 else BatchEnd(Size(k - 1), n, Start(k - 1))
    }

    /** The batch size in force for batch number `k`. */
    function Size(k: nat): (size: nat)
      requires InBounds(batchSize)
      ensures InBounds(size)
      decreases k, 1
    {
      if k == 0 then batchSize else SizeAfter(Size(k - 1), Start(k) - Start(k - 1), coeffs(k - 1))
    }
  }

  lemma RunStep(run: Run, k: nat)
    requires InBounds(run.batchSize)
    ensures run.Start(k + 1) == BatchEnd(run.Size(k), run.n, run.Start(k))
    ensures run.Size(k + 1) == SizeAfter(run.Size(k), run.Start(k + 1) - run.Start(k), run.coeffs(k))
  {
  }

  /** A batch that is not full leaves the size alone, and a full one changes it by its time. */
  lemma OnlyFullBatchesAdjust(run: Run, k: nat)
    requires InBounds(run.batchSize)
    ensures var processed := run.Start(k + 1) - run.Start(k);
            && (processed != run.Size(k) ==> run.Size(k + 1) == run.Size(k))
            && (processed == run.Size(k) ==> run.Size(k + 1) == Adjusted(run.Size(k), run.coeffs(k)))
            && (run.Start(k) + run.Size(k) <= run.n <==> processed == run.Size(k))
  {
    RunStep(run, k);
  }

  /**
   * The batches cover the payloads from left to right without gap or overlap; each has an allowed size but
   * the last, which may be smaller; and so there are at most n / MIN_BATCH_SIZE + 1 of them.
   */
  lemma {:induction false} BatchesPartition(run: Run, k: nat)
    requires InBounds(run.batchSize)
    ensures run.Start(k) < run.n ==> run.Start(k) < run.Start(k + 1)
    ensures run.Start(k + 1) < run.n ==> InBounds(run.Start(k + 1) - run.Start(k))
    ensures run.Start(k + 1) - run.Start(k) <= MAX_BATCH_SIZE
    ensures run.Start(k) >= k * MIN_BATCH_SIZE || run.Start(k) == run.n
  {
    if k > 0 {
      BatchesPartition(run, k - 1);
    }
  }

  // ---------------------------------------------------------------- transactions

  /** Steps taken one after another in one transaction; a violated constraint undoes all of them. */
  function AllOrNothing(process: (seq<Node>, Payload) -> Step, nodes: seq<Node>, ps: seq<Payload>): Step {
    if ps == [] then Done(nodes, [])
    else
      var init := AllOrNothing(process, nodes, ps[..|ps| - 1]);
      if init.ConstraintError? then init else After(init.reports, process(init.nodes, ps[|ps| - 1]))
  }

  function After(reports: seq<Report>, step: Step): Step {
    if step.ConstraintError? then step else Done(step.nodes, reports + step.reports)
  }

  lemma {:induction false} AllOrNothingSplit(
      process: (seq<Node>, Payload) -> Step, nodes: seq<Node>, a: seq<Payload>, b: seq<Payload>)
    ensures AllOrNothing(process, nodes, a + b) ==
            (var first := AllOrNothing(process, nodes, a);
             if first.ConstraintError? then first
             else After(first.reports, AllOrNothing(process, first.nodes, b)))
    decreases |b|
  {
    var first := AllOrNothing(process, nodes, a);
    if b == [] {
      assert a + b == a;
    } else {
      var (init, last) := (b[..|b| - 1], b[|b| - 1]);
      assert (a + b)[..|a + b| - 1] == a + init;
      AllOrNothingSplit(process, nodes, a, init);
      if first.Done? {
        AfterAfter(first.reports, AllOrNothing(process, first.nodes, init), last, process);
      }
    }
  }

  lemma AfterAfter(reports: seq<Report>, init: Step, last: Payload, process: (seq<Node>, Payload) -> Step)
    ensures init.Done? ==>
      After(reports + init.reports, process(init.nodes, last)) ==
      After(reports, After(init.reports, process(init.nodes, last)))
  {
    if init.Done? && process(init.nodes, last).Done? {
      var more := process(init.nodes, last).reports;
      assert reports + init.reports + more == reports + (init.reports + more);
    }
  }

  function MergeTogether(policy: Policy, nodes: seq<Node>, ps: seq<Payload>): Step {
    AllOrNothing((ns, p) => Process(policy, ns, p), nodes, ps)
  }

  lemma MergeTogetherSplit(policy: Policy, nodes: seq<Node>, a: seq<Payload>, b: seq<Payload>)
    ensures MergeTogether(policy, nodes, a + b) ==
            (var first := MergeTogether(policy, nodes, a);
             if first.ConstraintError? then first else After(first.reports, MergeTogether(policy, first.nodes, b)))
  {
    AllOrNothingSplit((ns, p) => Process(policy, ns, p), nodes, a, b);
  }

  lemma MergeUpTo(policy: Policy, table: seq<Node>, ps: seq<Payload>, start: nat, end: nat,
                  nodes: seq<Node>, reports: seq<Report>)
    requires start <= end <= |ps|
    requires MergeTogether(policy, table, ps[..start]) == Done(nodes, reports)
    ensures MergeTogether(policy, table, ps[..end]) == After(reports, MergeTogether(policy, nodes, ps[start..end]))
  {
    assert ps[..end] == ps[..start] + ps[start..end];
    MergeTogetherSplit(policy, table, ps[..start], ps[start..end]);
  }

  lemma MergeOneMore(policy: Policy, nodes: seq<Node>, ps: seq<Payload>, p: Payload)
    ensures MergeTogether(policy, nodes, ps + [p]) ==
            (var init := MergeTogether(policy, nodes, ps);
             if init.ConstraintError? then init else After(init.reports, Process(policy, init.nodes, p)))
  {
    assert (ps + [p])[..|ps|] == ps;
  }

  /** One transaction that succeeds does what the same payloads do in transactions of their own. */
  lemma {:induction false} TogetherIsEach(policy: Policy, nodes: seq<Node>, ps: seq<Payload>)
    requires MergeTogether(policy, nodes, ps).Done?
    ensures var step := MergeTogether(policy, nodes, ps);
            MergeEach(policy, nodes, ps) == (step.nodes, step.reports)
    decreases |ps|
  {
    if ps != [] {
      TogetherIsEach(policy, nodes, ps[..|ps| - 1]);
    }
  }

  // ---------------------------------------------------------------- the store

  datatype Ending = Finished | ShutDown | Aborted

  class Store {
    var nodes: seq<Node>
    var batchSize: nat

    ghost predicate Valid()
      reads this
    {
      InBounds(batchSize) && Consistent(nodes)
    }

    constructor ()
      ensures Valid() && nodes == [] && batchSize == MIN_BATCH_SIZE
    {
      nodes, batchSize := [], MIN_BATCH_SIZE;
    }

    /** Process one batch in one transaction. */
    method ProcessBatch(policy: Policy, batch: seq<Payload>) returns (ok: bool, reports: seq<Report>)
      requires Valid() && AllWireShaped(batch)
      modifies this`nodes
      ensures Valid()
      ensures old(nodes) <= nodes
      ensures ok == MergeTogether(policy, old(nodes), batch).Done?
      ensures ok ==> MergeTogether(policy, old(nodes), batch) == Done(nodes, reports)
      ensures !ok ==> nodes == old(nodes) && reports == []
    {
      var before := nodes;
      reports := [];
      var i := 0;
      while i < |batch|
        invariant 0 <= i <= |batch|
        invariant Valid() && before <= nodes
        invariant MergeTogether(policy, before, batch[..i]) == Done(nodes, reports)
      {
        MergeOneMore(policy, before, batch[..i], batch[i]);
        assert batch[..i + 1] == batch[..i] + [batch[i]];
        var step := Process(policy, nodes, batch[i]);
        if step.ConstraintError? {
          assert batch[..i + 1] + batch[i + 1..] == batch;
          MergeTogetherSplit(policy, before, batch[..i + 1], batch[i + 1..]);
          nodes := before;
          return false, [];
        }
        ProcessKeepsTable(policy, nodes, batch[i]);
        nodes := step.nodes;
        reports := reports + step.reports;
        i := i + 1;
      }
      assert batch[..i] == batch;
      ok := true;
    }

    /** The next batch of a list whose beginning has been merged into what was `table`. */
    method ProcessNext(policy: Policy, ghost table: seq<Node>, ps: seq<Payload>, start: nat, end: nat, reports: seq<Report>)
        returns (ok: bool, all: seq<Report>)
      requires Valid() && AllWireShaped(ps) && start <= end <= |ps|
      requires MergeTogether(policy, table, ps[..start]) == Done(nodes, reports)
      modifies this`nodes
      ensures Valid()
      ensures old(nodes) <= nodes
      ensures ok ==> MergeTogether(policy, table, ps[..end]) == Done(nodes, all)
      ensures !ok ==> MergeTogether(policy, table, ps[..end]).ConstraintError? && nodes == old(nodes)
    {
      MergeUpTo(policy, table, ps, start, end, nodes, reports);
      var added;
      ok, added := ProcessBatch(policy, ps[start..end]);
      all := reports + added;
    }

    /** What a full batch teaches about the size of the next. */
    method AdjustBatchSize(coeff: real)
      requires InBounds(batchSize)
      modifies this`batchSize
      ensures batchSize == Adjusted(old(batchSize), coeff)
    {
      batchSize := Adjusted(batchSize, coeff);
    }

    /** One turn of the loop: batch number `k` of a run, if the table takes it, and the size of the next batch. */
    method ProcessTurn(policy: Policy, ghost table: seq<Node>, ps: seq<Payload>, start: nat, coeff: real,
                       reports: seq<Report>, ghost run: Run, ghost k: nat)
        returns (ok: bool, end: nat, all: seq<Report>)
      requires Valid() && AllWireShaped(ps) && start < |ps| == run.n
      requires InBounds(run.batchSize) && run.Start(k) == start && run.Size(k) == batchSize && run.coeffs(k) == coeff
      requires MergeTogether(policy, table, ps[..start]) == Done(nodes, reports)
      modifies this
      ensures Valid() && old(nodes) <= nodes
      ensures start < end == run.Start(k + 1) <= |ps|
      ensures ok ==> batchSize == run.Size(k + 1)
      ensures ok ==> MergeTogether(policy, table, ps[..end]) == Done(nodes, all)
      ensures !ok ==> MergeTogether(policy, table, ps[..end]).ConstraintError? && nodes == old(nodes)
    {
      end := start + batchSize;
      if end > |ps| {
        end := |ps|;
      }
      RunStep(run, k);
      ok, all := ProcessNext(policy, table, ps, start, end, reports);
      if ok && end - start == batchSize {
        AdjustBatchSize(coeff);
      }
    }

    /**
     * process_squashed_mdblob after decoding. `coeffs` and `shuttingDown` give the measured time and the
     * shutdown flag after every batch. The table ends up as if exactly the payloads of the first `batches`
     * batches had been merged: all of them, unless a shutdown or a violated constraint came first.
     */
    method ProcessSquashed(policy: Policy, ps: seq<Payload>, coeffs: nat -> real, shuttingDown: nat -> bool)
        returns (ending: Ending, batches: nat, reports: seq<Report>)
      requires Valid() && AllWireShaped(ps)
      modifies this
      ensures Valid()
      ensures old(nodes) <= nodes
      ensures var run := Run(old(batchSize), |ps|, coeffs);
              && MergeTogether(policy, old(nodes), ps[..run.Start(batches)]) == Done(nodes, reports)
              && (ending.Finished? ==> run.Start(batches) == |ps|)
              && (ending.Aborted? ==>
                    MergeTogether(policy, old(nodes), ps[..run.Start(batches + 1)]).ConstraintError?)
      ensures ending.ShutDown? ==> batches > 0 && shuttingDown(batches - 1)
      ensures forall k :: 0 <= k < batches && shuttingDown(k) ==> ending.ShutDown? && k == batches - 1
    {
      ghost var run := Run(batchSize, |ps|, coeffs);
      ghost var table := nodes;
      reports := [];
      batches := 0;
      var start := 0;
      assert ps[..0] == [];
      while start < |ps|
        invariant start == run.Start(batches) && batchSize == run.Size(batches)
        invariant Valid() && table <= nodes
        invariant MergeTogether(policy, table, ps[..start]) == Done(nodes, reports)
        invariant forall k :: 0 <= k < batches ==> !shuttingDown(k)
        decreases |ps| - start
      {
        var ok, end, all := ProcessTurn(policy, table, ps, start, coeffs(batches), reports, run, batches);
        if !ok {
          return Aborted, batches, reports;
        }
        start, reports, batches := end, all, batches + 1;
        if shuttingDown(batches - 1) {
          return ShutDown, batches, reports;
        }
      }
      ending := Finished;
    }
  }

  // ---------------------------------------------------------------- what a run means

  /** Each payload of the processed prefix counts once and in order, whatever the batches were. */
  lemma PrefixIsMergedOnce(
      policy: Policy, nodes: seq<Node>, ps: seq<Payload>, upTo: nat, after: seq<Node>, reports: seq<Report>)
    requires upTo <= |ps|
    requires MergeTogether(policy, nodes, ps[..upTo]) == Done(after, reports)
    ensures MergeEach(policy, nodes, ps[..upTo]) == (after, reports)
  {
    TogetherIsEach(policy, nodes, ps[..upTo]);
  }

  /** And then each acceptable payload of that prefix has its row. */
  lemma PrefixIsStored(
      policy: Policy, nodes: seq<Node>, ps: seq<Payload>, upTo: nat, after: seq<Node>, reports: seq<Report>, k: nat)
    requires Consistent(nodes) && AllWireShaped(ps) && k < upTo <= |ps| && Acceptable(policy, ps[k])
    requires MergeTogether(policy, nodes, ps[..upTo]) == Done(after, reports)
    ensures Covered(after, ps[k])
  {
    PrefixIsMergedOnce(policy, nodes, ps, upTo, after, reports);
    TogetherSettles(policy, nodes, ps[..upTo], k);
    ProcessStoresIff(policy, after, ps[k]);
  }

  /** The table takes the payload without a violated constraint and learns nothing from it. */
  predicate Settled(policy: Policy, nodes: seq<Node>, p: Payload) {
    Process(policy, nodes, p).Done? && Known(policy, nodes, p)
  }

  lemma SettledStays(policy: Policy, nodes: seq<Node>, more: seq<Node>, p: Payload)
    requires nodes <= more && Settled(policy, nodes, p)
    ensures Settled(policy, more, p)
  {
    KnownStaysKnown(policy, nodes, more, p);
    if Accepts(policy, p) && !IsFreeForAll(p) {
      var i := Find(nodes, p.PublicKey(), p.Id());
      assert i < |nodes| && more[i] == nodes[i];
    }
  }

  /** A transaction that succeeds settles every payload of it. */
  lemma {:induction false} TogetherSettles(policy: Policy, nodes: seq<Node>, ps: seq<Payload>, k: nat)
    requires MergeTogether(policy, nodes, ps).Done? && k < |ps|
    ensures Settled(policy, MergeTogether(policy, nodes, ps).nodes, ps[k])
    decreases |ps|
  {
    var (init, last) := (ps[..|ps| - 1], ps[|ps| - 1]);
    var before := MergeTogether(policy, nodes, init).nodes;
    var step := Process(policy, before, last);
    if k < |init| {
      TogetherSettles(policy, nodes, init, k);
      SettledStays(policy, before, step.nodes, ps[k]);
    } else {
      ProcessMakesKnown(policy, before, last);
      assert Settled(policy, step.nodes, last);
    }
  }

  lemma {:induction false} SettledAddsNothing(policy: Policy, nodes: seq<Node>, ps: seq<Payload>)
    requires forall k :: 0 <= k < |ps| ==> Settled(policy, nodes, ps[k])
    ensures var step := MergeTogether(policy, nodes, ps);
            step.Done? && step.nodes == nodes && NothingNew(step.reports)
    decreases |ps|
  {
    if ps != [] {
      var init := ps[..|ps| - 1];
      assert forall k :: 0 <= k < |init| ==> init[k] == ps[k];
      SettledAddsNothing(policy, nodes, init);
      assert Settled(policy, nodes, ps[|ps| - 1]);
    }
  }

  /**
   * What was merged in one run goes through again later, whatever the table has learnt since and however far the
   * second run gets: no constraint is violated, nothing is new, and the table stays as it is.
   */
  lemma SecondRunAddsNothing(policy: Policy, nodes: seq<Node>, ps: seq<Payload>, later: seq<Node>, upTo: nat)
    requires MergeTogether(policy, nodes, ps).Done? && MergeTogether(policy, nodes, ps).nodes <= later
    requires upTo <= |ps|
    ensures var again := MergeTogether(policy, later, ps[..upTo]);
            again.Done? && again.nodes == later && NothingNew(again.reports)
  {
    forall k | 0 <= k < upTo
      ensures Settled(policy, later, ps[..upTo][k])
    {
      TogetherSettles(policy, nodes, ps, k);
      SettledStays(policy, MergeTogether(policy, nodes, ps).nodes, later, ps[k]);
    }
    SettledAddsNothing(policy, later, ps[..upTo]);
  }
}
