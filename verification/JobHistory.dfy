/**
 What a sequence of saves, reads and removals leaves behind, said in terms of the sequence alone: reads return the last
 record stored, and an index list holds the stored keys in the order of their first save, less exactly those that were
 missed or removed.
 */
module JobHistory {
  import opened Basics
  import opened Cbor
  import opened Records
  import opened JobTables

  ghost predicate StoresKey(lib: Lib, op: Op, k: Key) {
    op.SaveOp? && KeyOf(op.job) == k && Stores(lib, op.job, op.f)
  }

  /** The last record that a save put under a key. */
  ghost function LastStored(lib: Lib, ops: seq<Op>, k: Key): Option<Job>
    decreases |ops|
  {
    if ops == [] then None
    else
      var op := ops[|ops| - 1];
      if StoresKey(lib, op, k) then Some(op.job) else LastStored(lib, ops[..|ops| - 1], k)
  }

  /** The keys of a table in the order in which their first record was stored. */
  ghost function FirstStored(lib: Lib, ops: seq<Op>, t: Table): seq<Key>
    decreases |ops|
  {
    if ops == [] then []
    else
      var op, before := ops[|ops| - 1], FirstStored(lib, ops[..|ops| - 1], t);
      if op.SaveOp? && TableOf(op.job) == t && Stores(lib, op.job, op.f) && KeyOf(op.job) !in before
      then before + [KeyOf(op.job)] else before
  }

  /** An index list has been written. */
  ghost predicate IndexWritten(lib: Lib, ops: seq<Op>, t: Table)
    decreases |ops|, 1
  {
    if ops == [] then false
    else
      var n := |ops| - 1;
      || IndexWritten(lib, ops[..n], t)
      || match ops[n]
         case SaveOp(job, f) =>
           TableOf(job) == t && FirstSave(lib, ops[..n], job, f) && !AddFails(lib, ops[..n], t, f)
         case RemoveOp(_, f) => t == Expires && !RemoveFails(lib, ops[..n], f)
         case _ => false
  }

  /** The save stores a record under a key that has none. */
  ghost predicate FirstSave(lib: Lib, ops: seq<Op>, job: Job, f: Faults)
    decreases |ops|, 0
  {
    Stores(lib, job, f) && KeyOf(job) !in FirstStored(lib, ops, TableOf(job))
  }

  /** After these operations an index list cannot be read: a call fails, or the list holds an unreadable key. */
  ghost predicate ReadFails(lib: Lib, ops: seq<Op>, t: Table, f: Faults)
    decreases |ops|, 3
  {
    f.indexHas || (f.indexGet && IndexWritten(lib, ops, t)) || !KeysReadable(lib, Listed(lib, ops, t))
  }

  /** A key cannot be appended to an index list: it cannot be read, it is full, or the write fails. */
  ghost predicate AddFails(lib: Lib, ops: seq<Op>, t: Table, f: Faults)
    decreases |ops|, 4
  {
    ReadFails(lib, ops, t, f) || |Listed(lib, ops, t)| >= lib.maxLength || f.indexPut
  }

  ghost predicate RemoveFails(lib: Lib, ops: seq<Op>, f: Faults)
    decreases |ops|, 4
  {
    ReadFails(lib, ops, Expires, f) || f.indexPut
  }

  /**
   The stored keys that are not listed: those whose first save could not append them, and the expiry ids that were removed.
   */
  ghost function Unlisted(lib: Lib, ops: seq<Op>): set<Key>
    decreases |ops|, 1
  {
    if ops == [] then {}
    else
      var n := |ops| - 1;
      var before := Unlisted(lib, ops[..n]);
      match ops[n]
      case SaveOp(job, f) =>
        if FirstSave(lib, ops[..n], job, f) && AddFails(lib, ops[..n], TableOf(job), f) then before + {KeyOf(job)} else before
      case RemoveOp(id, f) =>
        if !RemoveFails(lib, ops[..n], f) && ExpireKey(id) in FirstStored(lib, ops[..n], Expires)
        then before + {ExpireKey(id)} else before
      case _ => before
  }

  /** The first-save order of a table, less the unlisted keys. */
  ghost function Listed(lib: Lib, ops: seq<Op>, t: Table): seq<Key>
    decreases |ops|, 2
  {
    Keep(FirstStored(lib, ops, t), Unlisted(lib, ops))
  }

  /** The list without the dropped keys. */
  ghost function Keep(ks: seq<Key>, drop: set<Key>): (r: seq<Key>)
    ensures forall k :: k in r <==> k in ks && k !in drop
  {
    if ks == [] then []
    else
      var k, before := ks[|ks| - 1], Keep(ks[..|ks| - 1], drop);
      assert ks == ks[..|ks| - 1] + [k];
      if k in drop then before else before + [k]
  }

  lemma {:induction false} KeepAll(ks: seq<Key>, drop: set<Key>)
    requires forall k :: k in ks ==> k !in drop
    ensures Keep(ks, drop) == ks
  {
    if ks != [] {
      KeepAll(ks[..|ks| - 1], drop);
      assert ks == ks[..|ks| - 1] + [ks[|ks| - 1]];
    }
  }

  lemma {:induction false} KeepIgnores(ks: seq<Key>, drop: set<Key>, k: Key)
    requires k !in ks
    ensures Keep(ks, drop + {k}) == Keep(ks, drop)
  {
    if ks != [] {
      assert ks == ks[..|ks| - 1] + [ks[|ks| - 1]];
      KeepIgnores(ks[..|ks| - 1], drop, k);
    }
  }

  lemma {:induction false} WithoutAppend(ks: seq<Key>, x: Key, k: Key)
    ensures Without(ks + [x], k) == if k in ks then Without(ks, k) + [x] else if x == k then ks else ks + [x]
  {
    if ks == [] {
      assert [] + [x] == [x];
    } else {
      assert (ks + [x])[1..] == ks[1..] + [x];
      assert ks == [ks[0]] + ks[1..];
      if ks[0] == k {
        assert Without(ks, k) == ks[1..];
      } else {
        WithoutAppend(ks[1..], x, k);
      }
    }
  }

  /** On a list without repetitions, removing the first occurrence drops the key. */
  lemma {:induction false} WithoutIsKeep(ks: seq<Key>, drop: set<Key>, k: Key)
    requires NoDup(ks)
    ensures Without(Keep(ks, drop), k) == Keep(ks, drop + {k})
  {
    if ks != [] {
      var x, init := ks[|ks| - 1], ks[..|ks| - 1];
      WithoutIsKeep(init, drop, k);
      if x !in drop { WithoutLast(Keep(init, drop), x, k, init, drop); }
    }
  }

  lemma WithoutLast(before: seq<Key>, x: Key, k: Key, init: seq<Key>, drop: set<Key>)
    requires before == Keep(init, drop) && x !in init && Without(before, k) == Keep(init, drop + {k})
    ensures Without(before + [x], k) == Keep(init, drop + {k}) + if x == k then [] else [x]
  {
    WithoutAppend(before, x, k);
    if x == k {
      KeepIgnores(init, drop, k);
    } else if k !in before {
      WithoutAbsent(before, k);
    }
  }

  lemma RunStep(lib: Lib, ops: seq<Op>)
    requires ops != []
    ensures var n := |ops| - 1; var m := Run(lib, Empty, ops[..n]).0;
      Run(lib, Empty, ops).0 == Step(lib, m, ops[n]).0 && Run(lib, Empty, ops).1[n] == Step(lib, m, ops[n]).1
  {
  }

  lemma LastStep(lib: Lib, m: Tables, op: Op, k: Key)
    ensures var m' := Step(lib, m, op).0;
      && (k in m'.jobs <==> StoresKey(lib, op, k) || k in m.jobs)
      && (k in m'.jobs ==> m'.jobs[k] == if StoresKey(lib, op, k) then op.job else m.jobs[k])
  {
  }

  /** After every run, a read returns the last record stored under its key, or the zero record if there is none. */
  lemma {:induction false} LastWriteWins(lib: Lib, ops: seq<Op>, k: Key)
    ensures var m := Run(lib, Empty, ops).0;
      && (k in m.jobs <==> LastStored(lib, ops, k).Some?)
      && Get(lib, m, k, NoFaults)
         == match LastStored(lib, ops, k)
            case Some(job) => if JobReadable(lib, job) then Some(job) else None
            case None => Some(ZeroJob(KeyTable(k)))
    decreases |ops|
  {
    StoredIsLast(lib, ops, k);
  }

  lemma {:induction false} StoredIsLast(lib: Lib, ops: seq<Op>, k: Key)
    ensures var m := Run(lib, Empty, ops).0;
      LastStored(lib, ops, k) == if k in m.jobs then Some(m.jobs[k]) else None
    decreases |ops|
  {
    if ops != [] {
      var n := |ops| - 1;
      StoredIsLast(lib, ops[..n], k);
      RunStep(lib, ops);
      LastStep(lib, Run(lib, Empty, ops[..n]).0, ops[n], k);
    }
  }

  /** A key has a record after a run if the last operation stored one, or if it had one before. */
  lemma StoredStep(lib: Lib, ops: seq<Op>)
    requires ops != []
    ensures var n := |ops| - 1;
      forall k :: k in Run(lib, Empty, ops).0.jobs <==> StoresKey(lib, ops[n], k) || k in Run(lib, Empty, ops[..n]).0.jobs
  {
    var n := |ops| - 1;
    RunStep(lib, ops);
    forall k ensures k in Run(lib, Empty, ops).0.jobs <==> StoresKey(lib, ops[n], k) || k in Run(lib, Empty, ops[..n]).0.jobs {
      LastStep(lib, Run(lib, Empty, ops[..n]).0, ops[n], k);
    }
  }

  lemma {:induction false} FirstStoredIsStored(lib: Lib, ops: seq<Op>, t: Table)
    ensures var ks := FirstStored(lib, ops, t); NoDup(ks) && KeysOfTable(t, ks)
    ensures forall k :: k in FirstStored(lib, ops, t) <==> k in Run(lib, Empty, ops).0.jobs && KeyTable(k) == t
    decreases |ops|
  {
    if ops != [] {
      StoredStep(lib, ops);
      FirstStoredIsStored(lib, ops[..|ops| - 1], t);
    }
  }

  /** The index list of the tables is the listed keys, and it is there once it was written. */
  ghost predicate Agrees(lib: Lib, ops: seq<Op>, t: Table) {
    var m := Run(lib, Empty, ops).0;
    IndexOf(m, t) == Listed(lib, ops, t) && (t in m.index <==> IndexWritten(lib, ops, t))
  }

  lemma GuardsAgree(lib: Lib, ops: seq<Op>, t: Table, f: Faults)
    requires Agrees(lib, ops, t)
    ensures var m := Run(lib, Empty, ops).0;
      && (GetIndex(lib, m, t, f).None? <==> ReadFails(lib, ops, t, f))
      && (Indexes(lib, m, t, f) <==> !AddFails(lib, ops, t, f))
  {
  }

  /** After every run, the index list is the first-save order of the stored keys, less exactly the unlisted ones. */
  lemma IndexIsFirstSaveOrder(lib: Lib, ops: seq<Op>, t: Table)
    ensures IndexOf(Run(lib, Empty, ops).0, t) == Keep(FirstStored(lib, ops, t), Unlisted(lib, ops))
  {
    HistoryAgrees(lib, ops, t);
  }

  lemma {:induction false} HistoryAgrees(lib: Lib, ops: seq<Op>, t: Table)
    ensures Agrees(lib, ops, t)
    decreases |ops|
  {
    if ops != [] {
      var n := |ops| - 1;
      HistoryAgrees(lib, ops[..n], t);
      RunStep(lib, ops);
      match ops[n]
      case SaveOp(_, _) => AgreesAfterSave(lib, ops, t);
      case RemoveOp(_, _) => AgreesAfterRemove(lib, ops, t);
      case _ =>
    }
  }

  lemma HistoryAfterSave(lib: Lib, ops: seq<Op>, t: Table)
    requires ops != [] && ops[|ops| - 1].SaveOp?
    ensures var init, job, f := ops[..|ops| - 1], ops[|ops| - 1].job, ops[|ops| - 1].f;
      var isNew, fails := FirstSave(lib, init, job, f), AddFails(lib, init, TableOf(job), f);
      && FirstStored(lib, ops, t)
         == (if isNew && TableOf(job) == t then FirstStored(lib, init, t) + [KeyOf(job)] else FirstStored(lib, init, t))
      && Unlisted(lib, ops) == (if isNew && fails then Unlisted(lib, init) + {KeyOf(job)} else Unlisted(lib, init))
      && (IndexWritten(lib, ops, t) <==> IndexWritten(lib, init, t) || (TableOf(job) == t && isNew && !fails))
  {
  }

  lemma AgreesAfterSave(lib: Lib, ops: seq<Op>, t: Table)
    requires ops != [] && ops[|ops| - 1].SaveOp? && Agrees(lib, ops[..|ops| - 1], t)
    ensures Agrees(lib, ops, t)
  {
    var init, op := ops[..|ops| - 1], ops[|ops| - 1];
    var m, ks := Run(lib, Empty, init).0, FirstStored(lib, init, t);
    FirstStoredIsStored(lib, init, t);
    FirstStoredIsStored(lib, init, TableOf(op.job));
    var isNew, fails := FirstSave(lib, init, op.job, op.f), AddFails(lib, init, TableOf(op.job), op.f);
    assert isNew <==> Stores(lib, op.job, op.f) && KeyOf(op.job) !in m.jobs;
    UnlistedIsStored(lib, init);
    GuardsAgree(lib, init, t, op.f);
    SaveIndex(lib, m, op.job, op.f, t, ks, Unlisted(lib, init), fails);
    HistoryAfterSave(lib, ops, t);
    RunStep(lib, ops);
  }

  /** A save on tables whose index list is `ks` less `before`; `fails` says that a key could not be appended. */
  lemma SaveIndex(lib: Lib, m: Tables, job: Job, f: Faults, t: Table, ks: seq<Key>, before: set<Key>, fails: bool)
    requires IndexOf(m, t) == Keep(ks, before) && (TableOf(job) == t ==> (fails <==> !Indexes(lib, m, t, f)))
    requires forall k :: k in ks <==> k in m.jobs && KeyTable(k) == t
    requires KeyOf(job) in m.jobs || KeyOf(job) !in before
    ensures var m', k := Save(lib, m, job, f).0, KeyOf(job);
      var isNew := Stores(lib, job, f) && k !in m.jobs;
      && IndexOf(m', t) == Keep(if isNew && TableOf(job) == t then ks + [k] else ks,
                                if isNew && fails then before + {k} else before)
      && (t in m'.index <==> t in m.index || (TableOf(job) == t && isNew && !fails))
  {
    var k := KeyOf(job);
    if Stores(lib, job, f) && k !in m.jobs {
      KeepIgnores(ks, before, k);
      assert (ks + [k])[..|ks|] == ks;
    }
  }

  lemma HistoryAfterRemove(lib: Lib, ops: seq<Op>, t: Table)
    requires ops != [] && ops[|ops| - 1].RemoveOp?
    ensures var init, id, f := ops[..|ops| - 1], ops[|ops| - 1].id, ops[|ops| - 1].f;
      var ok := !RemoveFails(lib, init, f);
      && FirstStored(lib, ops, t) == FirstStored(lib, init, t)
      && Unlisted(lib, ops) == (if ok && ExpireKey(id) in FirstStored(lib, init, Expires)
                                then Unlisted(lib, init) + {ExpireKey(id)} else Unlisted(lib, init))
      && (IndexWritten(lib, ops, t) <==> IndexWritten(lib, init, t) || (t == Expires && ok))
  {
  }

  lemma AgreesAfterRemove(lib: Lib, ops: seq<Op>, t: Table)
    requires ops != [] && ops[|ops| - 1].RemoveOp? && Agrees(lib, ops[..|ops| - 1], t)
    ensures Agrees(lib, ops, t)
  {
    var init, op := ops[..|ops| - 1], ops[|ops| - 1];
    var m, ks := Run(lib, Empty, init).0, FirstStored(lib, init, t);
    FirstStoredIsStored(lib, init, t);
    GuardsAgree(lib, init, t, op.f);
    var stored := ExpireKey(op.id) in FirstStored(lib, init, Expires);
    RemoveIndex(lib, m, op.id, op.f, t, ks, Unlisted(lib, init), !RemoveFails(lib, init, op.f), stored);
    HistoryAfterRemove(lib, ops, t);
    RunStep(lib, ops);
  }

  lemma RemoveIndex(
    lib: Lib, m: Tables, id: U64, f: Faults, t: Table, ks: seq<Key>, before: set<Key>, ok: bool, stored: bool)
    requires IndexOf(m, t) == Keep(ks, before) && NoDup(ks) && KeysOfTable(t, ks)
    requires t == Expires ==> ok == RemoveExpire(lib, m, id, f).1 && stored == (ExpireKey(id) in ks)
    ensures var m' := RemoveExpire(lib, m, id, f).0;
      && IndexOf(m', t) == Keep(ks, if ok && stored then before + {ExpireKey(id)} else before)
      && (t in m'.index <==> t in m.index || (t == Expires && ok))
  {
    WithoutIsKeep(ks, before, ExpireKey(id));
    if ExpireKey(id) !in ks { KeepIgnores(ks, before, ExpireKey(id)); }
    if t != Expires { assert ExpireKey(id) !in ks; }
  }

  lemma {:induction false} UnlistedIsStored(lib: Lib, ops: seq<Op>)
    ensures forall k :: k in Unlisted(lib, ops) ==> k in Run(lib, Empty, ops).0.jobs
    decreases |ops|
  {
    if ops != [] {
      var init := ops[..|ops| - 1];
      StoredStep(lib, ops);
      UnlistedIsStored(lib, init);
      FirstStoredIsStored(lib, init, Expires);
      match ops[|ops| - 1]
      case SaveOp(job, f) => HistoryAfterSave(lib, ops, Expires);
      case RemoveOp(_, _) => HistoryAfterRemove(lib, ops, Expires);
      case _ => assert Unlisted(lib, ops) == Unlisted(lib, init);
    }
  }

  /**
   An index list names every stored key of its table exactly when no key of the table is unlisted, and then it is the
   first-save order.
   */
  lemma IndexCompleteExactly(lib: Lib, ops: seq<Op>, t: Table)
    ensures var m := Run(lib, Empty, ops).0;
      && NoDup(IndexOf(m, t))
      && ((forall k :: k in m.jobs && KeyTable(k) == t ==> k in IndexOf(m, t))
          <==> (forall k :: k in Unlisted(lib, ops) ==> KeyTable(k) != t))
      && ((forall k :: k in Unlisted(lib, ops) ==> KeyTable(k) != t) ==> IndexOf(m, t) == FirstStored(lib, ops, t))
  {
    var ks, drop := FirstStored(lib, ops, t), Unlisted(lib, ops);
    IndexIsFirstSaveOrder(lib, ops, t);
    FirstStoredIsStored(lib, ops, t);
    UnlistedIsStored(lib, ops);
    KeepNoDup(ks, drop);
    if forall k :: k in drop ==> KeyTable(k) != t { KeepAll(ks, drop); }
  }

  lemma {:induction false} KeepNoDup(ks: seq<Key>, drop: set<Key>)
    requires NoDup(ks)
    ensures NoDup(Keep(ks, drop))
  {
    if ks != [] {
      assert ks == ks[..|ks| - 1] + [ks[|ks| - 1]];
      KeepNoDup(ks[..|ks| - 1], drop);
    }
  }

  lemma {:induction false} UnlistedGrows(lib: Lib, ops: seq<Op>, i: nat)
    requires i <= |ops|
    ensures Unlisted(lib, ops[..i]) <= Unlisted(lib, ops)
    decreases |ops|
  {
    if i == |ops| {
      assert ops[..i] == ops;
    } else {
      UnlistedGrows(lib, ops[..|ops| - 1], i);
      assert ops[..|ops| - 1][..i] == ops[..i];
    }
  }

  /** A key that is stored but missing from its index list is never listed again, whatever is saved later. */
  lemma NeverRelisted(lib: Lib, ops: seq<Op>, i: nat, k: Key)
    requires i <= |ops|
    requires var m := Run(lib, Empty, ops[..i]).0; k in m.jobs && k !in IndexOf(m, KeyTable(k))
    ensures var m := Run(lib, Empty, ops).0; k in m.jobs && k !in IndexOf(m, KeyTable(k))
  {
    var t := KeyTable(k);
    IndexIsFirstSaveOrder(lib, ops[..i], t);
    FirstStoredIsStored(lib, ops[..i], t);
    assert k in Unlisted(lib, ops[..i]);
    UnlistedGrows(lib, ops, i);
    UnlistedIsStored(lib, ops);
    IndexIsFirstSaveOrder(lib, ops, t);
  }
}
