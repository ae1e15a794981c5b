/**
 What a newly connected client receives: the current attack total and a
 copy of every tracked entry without its timer handle, listed in the
 tracked map's insertion order. Both go to that client only; building them
 reads the tracker state and changes nothing.
 */
module Hydrate {
  import opened Geo
  import opened KeyOrder
  import opened Tracker

  /** An entry as sent to a client: everything but the timer. */
  datatype View = View(ip: string, count: nat, attrs: Attributes, firstSeen: nat, lastSeen: nat)

  /** The `total` and `hydrate` messages sent on connection. */
  datatype Hydration = Hydration(totalAttacks: nat, tracked: seq<View>)

  function ViewOf(e: Entry): View {
    View(e.ip, e.count, e.attrs, e.firstSeen, e.lastSeen)
  }

  /** The views of the entries stored under `keys`, in that order; keys
      with no entry are skipped. */
  function Views(m: map<string, Entry>, keys: seq<string>): (vs: seq<View>)
    ensures |vs| <= |keys|
    ensures (forall k :: k in keys ==> k in m) ==>
      |vs| == |keys| && forall i :: 0 <= i < |keys| ==> vs[i] == ViewOf(m[keys[i]])
  {
    if |keys| == 0 then []
    else
      var rest := Views(m, keys[1..]);
      assert forall k :: k in keys[1..] ==> k in keys;
      if keys[0] in m then [ViewOf(m[keys[0]])] + rest else rest
  }

  /** Every tracked entry's view, in insertion order. */
  function Snapshot(s: State): seq<View> {
    Views(s.tracked, s.order)
  }

  /** The connection handler's messages for a new client. */
  function Connect(s: State): (h: Hydration)
    ensures h.totalAttacks == s.totalAttacks
  {
    Hydration(s.totalAttacks, Snapshot(s))
  }

  /** The hydrate list is exactly the tracked entries without their timers:
      one view per tracked IP, no IP twice, each view equal to its entry. */
  lemma SnapshotExact(s: State)
    requires WellFormed(s)
    ensures |Snapshot(s)| == |s.tracked|
    ensures forall v :: v in Snapshot(s) <==> v.ip in s.tracked && v == ViewOf(s.tracked[v.ip])
    ensures forall i, j :: 0 <= i < j < |Snapshot(s)| ==> Snapshot(s)[i].ip != Snapshot(s)[j].ip
  {
    var vs := Snapshot(s);
    assert |vs| == |s.order|;
    DistinctCard(s.order);
    assert Elems(s.order) == s.tracked.Keys;
    forall v ensures v in vs <==> v.ip in s.tracked && v == ViewOf(s.tracked[v.ip]) {
      if v in vs {
        var i :| 0 <= i < |vs| && vs[i] == v;
        assert s.order[i] in s.order;
      }
      if v.ip in s.tracked && v == ViewOf(s.tracked[v.ip]) {
        assert v.ip in s.order;
        var i :| 0 <= i < |s.order| && s.order[i] == v.ip;
        assert vs[i] == v;
      }
    }
    forall i, j | 0 <= i < j < |vs| ensures vs[i].ip != vs[j].ip {
      assert s.order[i] in s.order && s.order[j] in s.order;
    }
  }

  /** The hydrate list follows the tracked map's insertion order. */
  lemma SnapshotInOrder(s: State)
    requires WellFormed(s)
    ensures |Snapshot(s)| == |s.order|
    ensures forall i :: 0 <= i < |s.order| ==> Snapshot(s)[i] == ViewOf(s.tracked[s.order[i]])
  {
    assert forall k :: k in s.order ==> k in s.tracked;
  }
}
