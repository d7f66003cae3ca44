/** The loop that batches log records (`processWAL`) and its non-blocking drain. */
module WalBatcher {
  import opened Bytes
  import opened Seqs
  import opened Wal

  /** Which ready case the loop's `select` takes.  `late` is the outcome of the
      check that the batch has been held longer than the maximum batch time. */
  datatype Pick = Receive(late: bool) | Tick | SyncRequested | Done

  /** One turn of the loop under some schedule: the records that reach the channel
      before the select, the case it takes, and the records that reach the channel
      before each turn of the drain loop.  A sender blocked on a full channel is
      counted as queued: Go serves blocked senders in order. */
  datatype Turn = Turn(arrived: seq<Entry>, pick: Pick, during: seq<seq<Entry>>)

  function ArrivedIn(t: Turn): seq<Entry> {
    t.arrived + Flatten(t.during)
  }

  /** Everything submitted over a schedule, in order. */
  function Submitted(turns: seq<Turn>): seq<Entry> {
    if turns == [] then [] else ArrivedIn(turns[0]) + Submitted(turns[1..])
  }

  ghost predicate Sized(batches: seq<seq<Entry>>, size: nat) {
    forall i :: 0 <= i < |batches| ==> 1 <= |batches[i]| <= size
  }

  lemma {:induction false} FlattenSnoc(bs: seq<seq<Entry>>, b: seq<Entry>)
    ensures Flatten(bs + [b]) == Flatten(bs) + b
  {
    if bs == [] {
      assert [b][1..] == [];
    } else {
      FlattenSnoc(bs[1..], b);
      assert (bs + [b])[1..] == bs[1..] + [b];
    }
  }

  lemma {:induction false} SubmittedSnoc(ts: seq<Turn>, t: Turn)
    ensures Submitted(ts + [t]) == Submitted(ts) + ArrivedIn(t)
  {
    if ts == [] {
      assert ts + [t] == [t] && [t][1..] == [];
    } else {
      SubmittedSnoc(ts[1..], t);
      assert (ts + [t])[1..] == ts[1..] + [t];
      var x, y, z := ArrivedIn(ts[0]), Submitted(ts[1..]), ArrivedIn(t);
      Associative(x, y, z);
    }
  }

  /** The drain loop.  Its bound is re-read after every append, so it takes at most
      half of the room left in the batch, rounded up, and stops early only when the
      channel is empty or the batch has been written. */
  method Drain(batchSize: nat, batch0: seq<Entry>, queue0: seq<Entry>, during: seq<seq<Entry>>)
    returns (batch: seq<Entry>, queue: seq<Entry>, flushed: seq<Entry>)
    requires |batch0| < batchSize
    ensures flushed + batch + queue == batch0 + queue0 + Flatten(during)
    ensures |flushed| <= batchSize && |batch| < batchSize
    ensures |flushed + batch| - |batch0| <= (batchSize - |batch0| + 1) / 2
    ensures Flatten(during) == [] ==>
      var room := (batchSize - |batch0| + 1) / 2;
      |flushed + batch| - |batch0| == if |queue0| < room then |queue0| else room
  {
    batch, queue, flushed := batch0, queue0, [];
    var later := during;
    var i := 0;
    while i < batchSize - |batch|
      invariant flushed == []
      invariant |batch| == |batch0| + i < batchSize
      invariant i <= (batchSize - |batch0| + 1) / 2
      invariant batch + queue + Flatten(later) == batch0 + queue0 + Flatten(during)
      invariant Flatten(during) == [] ==> Flatten(later) == []
      decreases batchSize - |batch|
    {
      if |later| > 0 {
        Associative(batch + queue, later[0], Flatten(later[1..]));
        Associative(batch, queue, later[0]);
        queue, later := queue + later[0], later[1..];
      }
      if |queue| == 0 {
        break;
      }
      MoveOne(batch, queue);
      batch, queue := batch + [queue[0]], queue[1..];
      if |batch| >= batchSize {
        flushed, batch := batch, [];
        assert flushed + batch + queue == flushed + queue;
        break;
      }
      i := i + 1;
    }
    // whatever else arrives before the next select stays queued
    Associative(flushed + batch, queue, Flatten(later));
    queue := queue + Flatten(later);
  }

  lemma MoveOne(batch: seq<Entry>, queue: seq<Entry>)
    requires queue != []
    ensures batch + [queue[0]] + queue[1..] == batch + queue
  {
  }

  /** The whole loop over any schedule, writing batches to the log file.  At every
      turn what is written, then what is batched, then what is queued is exactly
      what was submitted, in order; the batch is below the batch size at every loop
      head.  After shutdown only records still queued are unwritten. */
  method ProcessWal(log: LogFile, batchSize: nat, turns: seq<Turn>)
    returns (batches: seq<seq<Entry>>, batch: seq<Entry>, queue: seq<Entry>, done: bool)
    requires batchSize >= 1
    modifies log
    ensures Flatten(batches) + batch + queue == Submitted(turns)
    ensures Sized(batches, batchSize)
    ensures |batch| < batchSize
    ensures done ==> batch == []
    ensures done <==> exists i :: 0 <= i < |turns| && turns[i].pick.Done?
    ensures log.bytes == old(log.bytes) + EncodeAll(Flatten(batches))
  {
    hide EncodeAll, Flatten, Submitted;
    batches, batch, queue, done := [], [], [], false;
    EmptyLists();
    for t := 0 to |turns|
      invariant Flatten(batches) + batch + queue == Submitted(turns[..t])
      invariant Sized(batches, batchSize) && |batch| < batchSize
      invariant done ==> batch == []
      invariant done <==> exists i :: 0 <= i < t && turns[i].pick.Done?
      invariant log.bytes == old(log.bytes) + EncodeAll(Flatten(batches))
    {
      SubmittedSnoc(turns[..t], turns[t]);
      assert turns[..t + 1] == turns[..t] + [turns[t]];
      if done {
        // the loop has returned: the channel only fills
        queue := queue + ArrivedIn(turns[t]);
      } else {
        batches, batch, queue, done := OneTurn(log, batchSize, batches, batch, queue, turns[t], old(log.bytes));
      }
    }
    assert turns[..|turns|] == turns;
  }

  lemma EmptyLists()
    ensures Flatten([]) == [] && Submitted([]) == [] && EncodeAll([]) == []
  {
  }

  method OneTurn(log: LogFile, batchSize: nat, batches0: seq<seq<Entry>>, batch0: seq<Entry>, queue0: seq<Entry>,
                 turn: Turn, ghost base: seq<Byte>)
    returns (batches: seq<seq<Entry>>, batch: seq<Entry>, queue: seq<Entry>, done: bool)
    requires |batch0| < batchSize && Sized(batches0, batchSize)
    requires log.bytes == base + EncodeAll(Flatten(batches0))
    modifies log
    ensures Flatten(batches) + batch + queue == Flatten(batches0) + batch0 + queue0 + ArrivedIn(turn)
    ensures Sized(batches, batchSize) && |batch| < batchSize
    ensures done == turn.pick.Done? && (done ==> batch == [])
    ensures log.bytes == base + EncodeAll(Flatten(batches))
  {
    hide EncodeAll, Flatten;
    var flushed;
    batch, queue, flushed, done := Select(batchSize, batch0, queue0 + turn.arrived, turn.pick);
    batches := Write(log, batchSize, batches0, flushed, base);
    ghost var w, b, q := Flatten(batches), batch, queue;
    assert w + b + q == Flatten(batches0) + batch0 + queue0 + turn.arrived by {
      Associative(Flatten(batches0), flushed, batch);
      Associative(Flatten(batches0), flushed + batch, queue);
      Associative(Flatten(batches0), batch0, queue0 + turn.arrived);
      Associative(Flatten(batches0) + batch0, queue0, turn.arrived);
    }
    Associative(Flatten(batches0) + batch0 + queue0, turn.arrived, Flatten(turn.during));
    Associative(w + b, q, Flatten(turn.during));
    if done {
      queue := queue + Flatten(turn.during);
    } else {
      batch, queue, flushed := Drain(batchSize, batch, queue, turn.during);
      batches := Write(log, batchSize, batches, flushed, base);
      Associative(w, flushed, batch);
      Associative(w, flushed + batch, queue);
      Associative(w, b + q, Flatten(turn.during));
      Associative(w, b, q);
    }
  }

  /** The blocking select at the head of the loop. */
  method Select(batchSize: nat, batch0: seq<Entry>, queue0: seq<Entry>, pick: Pick)
    returns (batch: seq<Entry>, queue: seq<Entry>, flushed: seq<Entry>, done: bool)
    requires |batch0| < batchSize
    ensures flushed + batch + queue == batch0 + queue0
    ensures |flushed| <= batchSize && |batch| < batchSize
    ensures done == pick.Done? && (!pick.Receive? ==> batch == [] && queue == queue0)
    ensures pick.Receive? && queue0 != [] ==> queue == queue0[1..] && (pick.late ==> batch == [])
  {
    batch, queue, flushed, done := batch0, queue0, [], pick.Done?;
    match pick {
      case Receive(late) =>
        if |queue| > 0 {
          MoveOne(batch, queue);
          batch, queue := batch + [queue[0]], queue[1..];
          if |batch| >= batchSize || late {
            flushed, batch := batch, [];
          }
        }
      case Tick =>
        if |batch| > 0 {
          flushed, batch := batch, [];
        }
      case SyncRequested =>
        if |batch| > 0 {
          flushed, batch := batch, [];
        }
      case Done =>
        if |batch| > 0 {
          flushed, batch := batch, [];
        }
    }
  }

  method Write(log: LogFile, batchSize: nat, batches0: seq<seq<Entry>>, flushed: seq<Entry>, ghost base: seq<Byte>)
    returns (batches: seq<seq<Entry>>)
    requires |flushed| <= batchSize && Sized(batches0, batchSize)
    requires log.bytes == base + EncodeAll(Flatten(batches0))
    modifies log
    ensures batches == if flushed == [] then batches0 else batches0 + [flushed]
    ensures Sized(batches, batchSize)
    ensures Flatten(batches) == Flatten(batches0) + flushed
    ensures log.bytes == base + EncodeAll(Flatten(batches))
  {
    hide EncodeAll, Flatten;
    batches := batches0;
    if |flushed| > 0 {
      FlattenSnoc(batches0, flushed);
      batches := batches0 + [flushed];
      EncodeConcat(Flatten(batches0), flushed);
      Associative(base, EncodeAll(Flatten(batches0)), EncodeAll(flushed));
      log.SyncBatch(flushed);
    }
  }

  /** End to end: cut the file anywhere after any run of the loop, and replay applies
      a prefix of what was submitted; nothing is invented, reordered or skipped. */
  lemma AnyCutReplaysAPrefix(turns: seq<Turn>, batches: seq<seq<Entry>>, rest: seq<Entry>, cut: nat)
    requires Flatten(batches) + rest == Submitted(turns)
    requires Fits(Submitted(turns)) && cut <= |File(Flatten(batches))|
    ensures ParseFile(File(Flatten(batches))[..cut]).applied <= Submitted(turns)
  {
    hide EncodeAll, ParseFile;
    var w := Flatten(batches);
    assert Fits(w) by {
      forall i | 0 <= i < |w| ensures |w[i].data| < TWO32 {
        assert Submitted(turns)[i] == w[i];
      }
    }
    var n := CrashSafety(w, cut);
  }
}
