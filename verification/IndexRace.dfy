/**
 First saves that overlap. The update of an index list (UpdateShardIndex and its siblings) reads the list and writes it
 back with one key more, and the storage service takes no lock around it: its workers and handlers run these two steps
 freely interleaved. A saver is known by its key; every key is new.
 */
module IndexRace {
  import opened Basics
  import opened Records

  /** The list in the datastore, the lists that savers have read, and the keys that were written, in order. */
  datatype State = State(list: seq<Key>, read: map<Key, seq<Key>>, written: seq<Key>)

  datatype Action = Read(key: Key) | Write(key: Key)

  predicate Enabled(base: seq<Key>, s: State, a: Action) {
    match a
    case Read(k) => k !in base && k !in s.read
    case Write(k) => k in s.read && k !in s.written
  }

  function Step(s: State, a: Action): State
    requires a.Write? ==> a.key in s.read
  {
    match a
    case Read(k) => s.(read := s.read[k := s.list])
    case Write(k) => s.(list := s.read[k] + [k], written := s.written + [k])
  }

  ghost predicate IsRun(base: seq<Key>, states: seq<State>, acts: seq<Action>) {
    && |states| == |acts| + 1 && states[0] == State(base, map[], [])
    && forall i {:trigger acts[i]} :: 0 <= i < |acts| ==>
         Enabled(base, states[i], acts[i]) && states[i + 1] == Step(states[i], acts[i])
  }

  /** The saver has read the list among the first `n` steps. */
  ghost predicate HasRead(acts: seq<Action>, n: nat, k: Key) {
    exists i :: 0 <= i < n && i < |acts| && acts[i] == Read(k)
  }

  /** Another key was written after the saver had read the list. */
  ghost predicate Late(acts: seq<Action>, n: nat, k: Key) {
    exists m :: 0 <= m < n && m < |acts| && acts[m].Write? && HasRead(acts, m, k)
  }

  /** Some saver was late when it wrote. */
  ghost predicate Overlap(acts: seq<Action>, n: nat) {
    exists j :: 0 <= j < n && j < |acts| && acts[j].Write? && Late(acts, j, acts[j].key)
  }

  ghost predicate Known(base: seq<Key>, s: State, ks: seq<Key>) {
    forall k :: k in ks ==> k in base || k in s.written
  }

  ghost predicate Misses(s: State, ks: seq<Key>) { exists x :: x in s.written && x !in ks }

  /** What a saver has read: the list as it is, or one that lacks a key that was written since. */
  ghost predicate ReadOk(base: seq<Key>, s: State, k: Key, late: bool)
    requires k in s.read
  {
    Known(base, s, s.read[k]) && k !in base && (if late then Misses(s, s.read[k]) else s.read[k] == s.list)
  }

  ghost predicate Inv(base: seq<Key>, s: State, acts: seq<Action>, n: nat) {
    && Known(base, s, s.list)
    && (forall k :: k in s.read <==> HasRead(acts, n, k))
    && (forall k :: k in s.read && k !in s.written ==> ReadOk(base, s, k, Late(acts, n, k)))
    && (if Overlap(acts, n) then Misses(s, s.list) else s.list == base + s.written)
  }

  lemma HistoryStep(acts: seq<Action>, n: nat)
    requires n < |acts|
    ensures forall k :: HasRead(acts, n + 1, k) <==> HasRead(acts, n, k) || acts[n] == Read(k)
    ensures forall k :: Late(acts, n + 1, k) <==> Late(acts, n, k) || (acts[n].Write? && HasRead(acts, n, k))
    ensures Overlap(acts, n + 1) <==> Overlap(acts, n) || (acts[n].Write? && Late(acts, n, acts[n].key))
  {
  }

  lemma ReadKeepsInv(base: seq<Key>, s: State, acts: seq<Action>, n: nat)
    requires n < |acts| && Inv(base, s, acts, n) && Enabled(base, s, acts[n]) && acts[n].Read?
    ensures Inv(base, Step(s, acts[n]), acts, n + 1)
  {
    HistoryStep(acts, n);
    var s', k := Step(s, acts[n]), acts[n].key;
    assert !Late(acts, n, k);
    forall p | p in s'.read && p !in s'.written ensures ReadOk(base, s', p, Late(acts, n + 1, p)) {
      if p != k { assert ReadOk(base, s, p, Late(acts, n, p)); }
    }
  }

  lemma WriteKeepsInv(base: seq<Key>, s: State, acts: seq<Action>, n: nat)
    requires n < |acts| && Inv(base, s, acts, n) && Enabled(base, s, acts[n]) && acts[n].Write?
    ensures Inv(base, Step(s, acts[n]), acts, n + 1)
  {
    HistoryStep(acts, n);
    var s', k := Step(s, acts[n]), acts[n].key;
    assert ReadOk(base, s, k, Late(acts, n, k));
    forall p | p in s'.read && p !in s'.written ensures ReadOk(base, s', p, Late(acts, n + 1, p)) {
      assert ReadOk(base, s, p, Late(acts, n, p));
      assert k in s'.written && k !in s.read[p];
    }
    if Overlap(acts, n + 1) {
      var x :| x in s.written && x !in s.read[k];
      assert x in s'.written && x !in s'.list;
    } else {
      assert s'.list == base + s'.written;
    }
  }

  lemma StartInv(base: seq<Key>, acts: seq<Action>)
    ensures Inv(base, State(base, map[], []), acts, 0)
  {
    assert base == base + [];
  }

  lemma StepKeepsInv(base: seq<Key>, s: State, s': State, acts: seq<Action>, n: nat)
    requires n < |acts| && Inv(base, s, acts, n) && Enabled(base, s, acts[n]) && s' == Step(s, acts[n])
    ensures Inv(base, s', acts, n + 1)
  {
    if acts[n].Read? { ReadKeepsInv(base, s, acts, n); } else { WriteKeepsInv(base, s, acts, n); }
  }

  lemma {:induction false} RunKeepsInv(base: seq<Key>, states: seq<State>, acts: seq<Action>, n: nat)
    requires IsRun(base, states, acts) && n < |states|
    ensures Inv(base, states[n], acts, n)
  {
    if n == 0 {
      StartInv(base, acts);
    } else {
      var i := n - 1;
      assert states[i + 1] == Step(states[i], acts[i]);
      RunKeepsInv(base, states, acts, i);
      StepKeepsInv(base, states[i], states[n], acts, i);
    }
  }

  /**
   In every interleaving of any number of first saves, a key that was written is missing from the list exactly if some
   saver wrote after another had written since it read; otherwise the list is the keys in the order of their writes.
   */
  lemma EntryLostExactly(base: seq<Key>, states: seq<State>, acts: seq<Action>, n: nat)
    requires IsRun(base, states, acts) && n < |states|
    ensures var s := states[n];
      && ((exists k :: k in s.written && k !in s.list) <==> Overlap(acts, n))
      && (!Overlap(acts, n) ==> s.list == base + s.written)
  {
    RunKeepsInv(base, states, acts, n);
  }

  /** Two first saves that both read before either writes: both succeed, and the first one's key is lost. */
  lemma TwoSavesLoseOne(a: Key, b: Key) returns (states: seq<State>, acts: seq<Action>)
    requires a != b
    ensures IsRun([], states, acts) && acts == [Read(a), Read(b), Write(a), Write(b)]
    ensures states[4].written == [a, b] && states[4].list == [b]
  {
    acts := [Read(a), Read(b), Write(a), Write(b)];
    var s0 := State([], map[], []);
    var s1 := Step(s0, Read(a));
    var s2 := Step(s1, Read(b));
    var s3 := Step(s2, Write(a));
    states := [s0, s1, s2, s3, Step(s3, Write(b))];
  }
}
