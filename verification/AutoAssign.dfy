/**
 Automatic assignment: src/app/main.cpp:1556-1596. Every newly seen eligible person is put on the
 least-loaded ready channel, once.
 */
module AutoAssign {
  import opened Eligibility
  import opened Options
  import opened TalkbackChannels

  type Key = (nat, nat)   // slot, user id

  // One housekeeping pass sees a roster, whether breakouts run, and a snapshot of the bank.
  datatype View = View(roster: seq<RosterMember>, station: string, started: bool, slots: seq<ChannelState>)

  datatype Table = Table(intent: set<Key>, autoAssigned: set<nat>)

  function IntentAt(intent: set<Key>, s: nat): set<nat> {
    set p | p in intent && p.0 == s :: p.1
  }

  // Members Zoom has confirmed, minus the known ineligible, plus everybody intended.
  function Load(v: View, intent: set<Key>, s: nat): nat
    requires s < |v.slots|
  {
    |EligibleMembers(v.slots[s].members, v.roster, v.station) + IntentAt(intent, s)|
  }

  // The first ready slot of least load among the first n.
  function Least(v: View, intent: set<Key>, n: nat): (pick: Option<nat>)
    requires n <= |v.slots|
    ensures pick.Some? ==> pick.value < n && v.slots[pick.value].ready
  {
    if n == 0 then None
    else
      var before := Least(v, intent, n - 1);
      if !v.slots[n - 1].ready then before
      else if before.None? || Load(v, intent, n - 1) < Load(v, intent, before.value) then Some(n - 1)
      else before
  }

  function AssignOne(v: View, t: Table, m: RosterMember): Table {
    if !IsTalkbackEligible(m, v.station) || m.userId in t.autoAssigned then t
    else
      var pick := Least(v, t.intent, |v.slots|);
      Table(if pick.Some? then t.intent + {(pick.value, m.userId)} else t.intent, t.autoAssigned + {m.userId})
  }

  function AssignFirst(v: View, t: Table, n: nat): Table
    requires n <= |v.roster|
  {
    if n == 0 then t else AssignOne(v, AssignFirst(v, t, n - 1), v.roster[n - 1])
  }

  function Assign(v: View, t: Table): Table {
    AssignFirst(v, t, |v.roster|)
  }

  // ----- the loops ---------------------------------------------------------------------------

  method SlotLoad(v: View, intent: set<Key>, s: nat) returns (load: nat)
    requires s < |v.slots|
    ensures load == Load(v, intent, s)
    ensures exists ids: set<nat> ::
      && load == |ids|
      && forall u: nat :: u in ids <==>
           (u in v.slots[s].members && Unobjectionable(v.roster, v.station, u)) || (s, u) in intent
  {
    var eligible := EligibleChannelMembers(v.slots[s].members, v.roster, v.station);
    var ids, todo := eligible, intent;
    while todo != {}
      invariant todo <= intent
      invariant ids == eligible + IntentAt(intent - todo, s)
      decreases todo
    {
      var p :| p in todo;
      IntentSnoc(intent - todo, p, s);
      assert intent - (todo - {p}) == (intent - todo) + {p};
      todo := todo - {p};
      if p.0 == s { ids := ids + {p.1}; }
    }
    assert intent - {} == intent;
    IntentAtIs(intent, s);
    return |ids|;
  }

  lemma IntentAtIs(intent: set<Key>, s: nat)
    ensures forall u: nat :: u in IntentAt(intent, s) <==> (s, u) in intent
  {
    forall u: nat | (s, u) in intent ensures u in IntentAt(intent, s) { assert (s, u).1 == u; }
  }

  lemma IntentSnoc(intent: set<Key>, p: Key, s: nat)
    ensures IntentAt(intent + {p}, s) == if p.0 == s then IntentAt(intent, s) + {p.1} else IntentAt(intent, s)
  {
    forall u | u in IntentAt(intent, s) ensures u in IntentAt(intent + {p}, s) {
      var q :| q in intent && q.0 == s && q.1 == u;
      assert q in intent + {p};
    }
    if p.0 == s { assert p in intent + {p}; }
  }

  /** The scan stops at the first empty ready slot; it still finds the first ready slot of least load. */
  method PickSlot(v: View, intent: set<Key>) returns (pick: Option<nat>)
    ensures pick == Least(v, intent, |v.slots|)
  {
    pick := None;
    var best := 0;
    for s := 0 to |v.slots|
      invariant pick == Least(v, intent, s)
      invariant pick.Some? ==> best == Load(v, intent, pick.value) && best > 0
    {
      if !v.slots[s].ready { continue; }
      var load := SlotLoad(v, intent, s);
      if load == 0 {
        EmptyWins(v, intent, s, |v.slots|);
        return Some(s);
      }
      if pick.None? || load < best {
        best := load;
        pick := Some(s);
      }
    }
  }

  lemma {:induction false} EmptyWins(v: View, intent: set<Key>, s: nat, n: nat)
    requires s < n <= |v.slots| && v.slots[s].ready && Load(v, intent, s) == 0
    requires var before := Least(v, intent, s); before.Some? ==> Load(v, intent, before.value) > 0
    ensures Least(v, intent, n) == Some(s)
  {
    if s < n - 1 { EmptyWins(v, intent, s, n - 1); }
  }

  method AssignNewcomers(v: View, t: Table) returns (t': Table)
    ensures t' == Assign(v, t)
  {
    t' := t;
    for i := 0 to |v.roster|
      invariant t' == AssignFirst(v, t, i)
    {
      var m := v.roster[i];
      if !IsTalkbackEligible(m, v.station) { continue; }
      if m.userId !in t'.autoAssigned {
        var pick := PickSlot(v, t'.intent);
        t' := t'.(autoAssigned := t'.autoAssigned + {m.userId});
        if pick.Some? { t' := t'.(intent := t'.intent + {(pick.value, m.userId)}); }
      }
    }
  }

  // ----- what is picked ------------------------------------------------------------------------

  // A pick exists exactly when some slot is ready; it is a ready slot no other ready slot
  // undercuts, and every earlier ready slot carries more.
  ghost predicate FirstLeast(v: View, intent: set<Key>, n: nat, pick: Option<nat>)
    requires n <= |v.slots|
  {
    match pick
    case None => forall s :: 0 <= s < n ==> !v.slots[s].ready
    case Some(k) =>
      && k < n && v.slots[k].ready
      && (forall s :: 0 <= s < n && v.slots[s].ready ==> Load(v, intent, k) <= Load(v, intent, s))
      && (forall s :: 0 <= s < k && v.slots[s].ready ==> Load(v, intent, k) < Load(v, intent, s))
  }

  ghost predicate SomeReady(v: View) {
    exists s :: 0 <= s < |v.slots| && v.slots[s].ready
  }

  lemma PickIffReady(v: View, intent: set<Key>)
    ensures Least(v, intent, |v.slots|).Some? <==> SomeReady(v)
  {
    LeastIsLeast(v, intent, |v.slots|);
  }

  lemma LeastStep(v: View, intent: set<Key>, n: nat, before: Option<nat>)
    requires n < |v.slots| && FirstLeast(v, intent, n, before)
    ensures FirstLeast(v, intent, n + 1,
      if !v.slots[n].ready then before
      else if before.None? || Load(v, intent, n) < Load(v, intent, before.value) then Some(n)
      else before)
  {
    hide Load;
  }

  /** The scan finds the first ready slot of least load. */
  lemma {:induction false} LeastIsLeast(v: View, intent: set<Key>, n: nat)
    requires n <= |v.slots|
    ensures FirstLeast(v, intent, n, Least(v, intent, n))
  {
    hide FirstLeast, Load;
    if n == 0 {
      NothingScanned(v, intent);
    } else {
      LeastIsLeast(v, intent, n - 1);
      LeastStep(v, intent, n - 1, Least(v, intent, n - 1));
    }
  }

  lemma NothingScanned(v: View, intent: set<Key>)
    ensures FirstLeast(v, intent, 0, None)
  {
  }
}
