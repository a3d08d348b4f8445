/**
 * The browser application's local mirror of the services it hears about:
 * a table from service key to the record last received for it, kept in
 * step with the list the screen shows, and a status line giving the
 * number of services.
 *
 * Records arrive as new objects on every callback, so a shown record is
 * the identity of its object together with its service key, the one
 * field the mirror reads; the list's position and removal queries compare
 * identities.
 */
module Browser {
  import opened Vectors

  /** One record object the browser holds: its identity and its service key. */
  datatype Shown = Shown(id: nat, key: string)

  /** The key the browser files a record under. */
  function Key(s: Shown): string {
    s.key
  }

  /** The table and the shown list together. */
  datatype Mirror = Mirror(byKey: map<string, Shown>, list: seq<Shown>)

  /** No two shown records have the same key. */
  ghost predicate KeysDistinct(list: seq<Shown>) {
    forall i, j :: 0 <= i < j < |list| ==> Key(list[i]) != Key(list[j])
  }

  /**
   * The list and the table's values hold the same records, one per key:
   * every shown record is the one the table holds for its key, and there
   * are as many shown records as keys (so every record of the table is
   * shown, by ShownInList).
   */
  ghost predicate Mirrors(m: Mirror) {
    && KeysDistinct(m.list)
    && (forall i :: 0 <= i < |m.list| ==> Key(m.list[i]) in m.byKey && m.byKey[Key(m.list[i])] == m.list[i])
    && |m.list| == |m.byKey|
  }

  /** ArrayAdapter.insert(x, p): `x` lands at position p, the rest move up. */
  function Insert(list: seq<Shown>, p: nat, x: Shown): (r: seq<Shown>)
    requires p <= |list|
    ensures |r| == |list| + 1 && r[p] == x
  {
    list[..p] + [x] + list[p..]
  }

  /** The keys of the shown records. */
  function KeysOf(list: seq<Shown>): set<string>
    decreases |list|
  {
    if list == [] then {} else KeysOf(list[..|list| - 1]) + {Key(list[|list| - 1])}
  }

  lemma {:induction false} KeyOrigin(list: seq<Shown>, k: string) returns (i: nat)
    requires k in KeysOf(list)
    ensures i < |list| && Key(list[i]) == k
    decreases |list|
  {
    var n := |list| - 1;
    if k == Key(list[n]) {
      i := n;
    } else {
      i := KeyOrigin(list[..n], k);
    }
  }

  lemma {:induction false} KeysOfSize(list: seq<Shown>)
    requires KeysDistinct(list)
    ensures |KeysOf(list)| == |list|
    decreases |list|
  {
    if list != [] {
      var n := |list| - 1;
      var front := list[..n];
      assert KeysDistinct(front);
      KeysOfSize(front);
      if Key(list[n]) in KeysOf(front) {
        var i := KeyOrigin(front, Key(list[n]));
        assert false;
      }
    }
  }

  /** Every record of the table is shown. */
  lemma ShownInList(m: Mirror, k: string)
    requires Mirrors(m) && k in m.byKey
    ensures m.byKey[k] in m.list && Key(m.byKey[k]) == k
  {
    var ks := KeysOf(m.list);
    KeysOfSize(m.list);
    forall j | j in ks ensures j in m.byKey {
      var i := KeyOrigin(m.list, j);
    }
    assert ks == m.byKey.Keys by {
      SubsetOfSameSize(ks, m.byKey.Keys);
    }
    var i := KeyOrigin(m.list, k);
  }

  lemma SubsetOfSameSize(a: set<string>, b: set<string>)
    requires a <= b && |a| == |b|
    ensures a == b
  {
    assert |b - a| == |b| - |a|;
  }

  /**
   * serviceUpdated: a known key has its record replaced in the table, the
   * new record is inserted at the old one's position and the old one is
   * removed; an unseen key is filed and its record appended.
   */
  function Updated(m: Mirror, s: Shown): Mirror
    requires Mirrors(m)
  {
    var k := Key(s);
    if k in m.byKey then
      var prev := m.byKey[k];
      ShownInList(m, k);
      var p := IndexOf(m.list, prev);
      Mirror(m.byKey[Key(prev) := s], RemoveFirst(Insert(m.list, p, s), prev))
    else
      Mirror(m.byKey[k := s], m.list + [s])
  }

  /** serviceRemoved: for a known key the stored record, not the argument, leaves the table and the list. */
  function Removed(m: Mirror, s: Shown): Mirror {
    var k := Key(s);
    if k in m.byKey then
      var prev := m.byKey[k];
      Mirror(m.byKey - {Key(prev)}, RemoveFirst(m.list, prev))
    else m
  }

  /**
   * The count the status line shows grows by one exactly when an update
   * brings an unseen key, and shrinks by one exactly when a removal names a
   * known key.
   */
  lemma StatusCounts(m: Mirror, s: Shown)
    requires Mirrors(m)
    ensures |Updated(m, s).byKey| == |m.byKey| + (if Key(s) in m.byKey then 0 else 1)
    ensures |Removed(m, s).byKey| == |m.byKey| - (if Key(s) in m.byKey then 1 else 0)
  {
  }

  /** Distinct keys mean distinct records. */
  lemma ShownDistinct(m: Mirror)
    requires Mirrors(m)
    ensures Distinct(m.list)
  {
  }

  /**
   * An update of a known key replaces the old record at its own position:
   * the length, and every other entry, stay as they were.
   */
  lemma UpdateKnownInPlace(m: Mirror, s: Shown)
    requires Mirrors(m) && Key(s) in m.byKey
    ensures var prev := m.byKey[Key(s)];
            && prev in m.list
            && Updated(m, s).list == m.list[IndexOf(m.list, prev) := s]
            && Updated(m, s).byKey == m.byKey[Key(s) := s]
  {
    var prev := m.byKey[Key(s)];
    ShownInList(m, Key(s));
    InsertThenRemove(m.list, IndexOf(m.list, prev), s);
  }

  /** Inserting `s` at the first position of an element and then removing that element overwrites it with `s`. */
  lemma InsertThenRemove(list: seq<Shown>, p: nat, s: Shown)
    requires p < |list| && list[p] !in list[..p]
    ensures RemoveFirst(Insert(list, p, s), list[p]) == list[p := s]
  {
    var prev, front, b := list[p], list[..p], list[p + 1..];
    assert list == front + [prev] + b && Insert(list, p, s) == front + [s] + ([prev] + b);
    UpdateSplit(front, prev, s, b);
    if s == prev {
      RemoveFirstAfter(front, prev, [prev] + b);
    } else {
      assert prev !in front + [s];
      RemoveFirstAfter(front + [s], prev, b);
    }
  }

  lemma UpdateSplit(front: seq<Shown>, x: Shown, y: Shown, b: seq<Shown>)
    ensures (front + [x] + b)[|front| := y] == front + [y] + b
    ensures front + [y] + ([x] + b) == (front + [y]) + [x] + b
  {
  }

  /** An update of an unseen key files the record and appends it to the end of the list. */
  lemma UpdateUnseenAppends(m: Mirror, s: Shown)
    requires Mirrors(m) && Key(s) !in m.byKey
    ensures |Updated(m, s).list| == |m.list| + 1
    ensures Updated(m, s).list[..|m.list|] == m.list && Updated(m, s).list[|m.list|] == s
    ensures Updated(m, s).byKey[Key(s)] == s
    ensures forall k :: k in m.byKey ==> k in Updated(m, s).byKey && Updated(m, s).byKey[k] == m.byKey[k]
  {
  }

  /** After an update of a known key by a new object, the old record is shown no more. */
  lemma UpdateDropsOld(m: Mirror, s: Shown)
    requires Mirrors(m) && Key(s) in m.byKey && m.byKey[Key(s)] != s
    ensures m.byKey[Key(s)] !in Updated(m, s).list
    ensures |Updated(m, s).list| == |m.list|
  {
    var prev := m.byKey[Key(s)];
    UpdateKnownInPlace(m, s);
    var p := IndexOf(m.list, prev);
    forall i | 0 <= i < |m.list| && i != p ensures m.list[i] != prev {
    }
  }

  /** Both callbacks keep the table and the list in step. */
  lemma UpdatedMirrors(m: Mirror, s: Shown)
    requires Mirrors(m)
    ensures Mirrors(Updated(m, s))
  {
    var r := Updated(m, s);
    var k := Key(s);
    if k in m.byKey {
      UpdateKnownInPlace(m, s);
      ShownInList(m, k);
      var p := IndexOf(m.list, m.byKey[k]);
      assert Key(m.list[p]) == k;
      forall i | 0 <= i < |r.list| ensures Key(r.list[i]) in r.byKey && r.byKey[Key(r.list[i])] == r.list[i] {
        if i != p {
          assert r.list[i] == m.list[i] && Key(m.list[i]) != k;
        }
      }
      assert KeysDistinct(r.list) by {
        forall i, j | 0 <= i < j < |r.list| ensures Key(r.list[i]) != Key(r.list[j]) {
          assert Key(r.list[i]) == Key(m.list[i]) && Key(r.list[j]) == Key(m.list[j]);
        }
      }
    } else {
      forall i | 0 <= i < |m.list| ensures Key(m.list[i]) != k {
      }
    }
  }

  lemma RemovedMirrors(m: Mirror, s: Shown)
    requires Mirrors(m)
    ensures Mirrors(Removed(m, s))
  {
    var k := Key(s);
    if k in m.byKey {
      var prev := m.byKey[k];
      ShownInList(m, k);
      RemoveFirstAt(m.list, prev);
      DropMirrors(m, IndexOf(m.list, prev));
    }
  }

  /** Dropping the record at `p` from the list and its key from the table keeps the two in step. */
  lemma DropMirrors(m: Mirror, p: nat)
    requires Mirrors(m) && p < |m.list|
    ensures Mirrors(Mirror(m.byKey - {Key(m.list[p])}, m.list[..p] + m.list[p + 1..]))
  {
    var k := Key(m.list[p]);
    var w := m.list[..p] + m.list[p + 1..];
    var t := m.byKey - {k};
    assert forall i :: 0 <= i < |w| ==> w[i] == m.list[if i < p then i else i + 1];
    forall i | 0 <= i < |w| ensures Key(w[i]) in t && t[Key(w[i])] == w[i] {
      var j := if i < p then i else i + 1;
      assert Key(m.list[j]) != k;
    }
    assert KeysDistinct(w) by {
      forall i, j | 0 <= i < j < |w| ensures Key(w[i]) != Key(w[j]) {
        var i', j' := if i < p then i else i + 1, if j < p then j else j + 1;
        assert w[i] == m.list[i'] && w[j] == m.list[j'];
      }
    }
  }

  /**
   * A removal of a known key drops the table entry and the stored record,
   * exactly one entry of the list; a removal of an unknown key changes
   * nothing.
   */
  lemma RemoveMeaning(m: Mirror, s: Shown)
    requires Mirrors(m)
    ensures Key(s) !in m.byKey ==> Removed(m, s) == m
    ensures Key(s) in m.byKey ==>
              var prev := m.byKey[Key(s)];
              && Removed(m, s).byKey == m.byKey - {Key(s)}
              && prev !in Removed(m, s).list
              && |Removed(m, s).list| == |m.list| - 1
              && forall x :: x in Removed(m, s).list <==> x in m.list && x != prev
  {
    if Key(s) in m.byKey {
      ShownInList(m, Key(s));
      ShownDistinct(m);
      RemoveFirstDistinct(m.list, m.byKey[Key(s)]);
    }
  }

  class MainActivity {
    var recordsByKey: map<string, Shown>
    /** The records the list adapter shows, in order. */
    var list: seq<Shown>
    /** The number the status line shows. */
    var shownCount: nat

    function Snapshot(): Mirror
      reads this
    {
      Mirror(recordsByKey, list)
    }

    constructor ()
      ensures Snapshot() == Mirror(map[], []) && shownCount == 0
    {
      recordsByKey, list, shownCount := map[], [], 0;
    }

    /** updateStatus: the status shows the size of the table. */
    method UpdateStatus()
      modifies this`shownCount
      ensures shownCount == |recordsByKey|
    {
      shownCount := |recordsByKey|;
    }

    method ServiceUpdated(s: Shown)
      requires Mirrors(Snapshot())
      modifies this
      ensures Mirrors(Snapshot()) && Snapshot() == Updated(old(Snapshot()), s)
      ensures shownCount == |recordsByKey| == |list|
      ensures shownCount == |old(recordsByKey)| + if Key(s) in old(recordsByKey) then 0 else 1
    {
      ghost var m := Snapshot();
      var k := Key(s);
      if k in recordsByKey {
        var prev := recordsByKey[k];
        ShownInList(m, k);
        recordsByKey := recordsByKey[Key(prev) := s];
        var p := IndexOf(list, prev);
        list := Insert(list, p, s);
        list := RemoveFirst(list, prev);
      } else {
        recordsByKey := recordsByKey[k := s];
        list := list + [s];
      }
      UpdatedMirrors(m, s);
      StatusCounts(m, s);
      UpdateStatus();
    }

    method ServiceRemoved(s: Shown)
      requires Mirrors(Snapshot())
      modifies this
      ensures Mirrors(Snapshot()) && Snapshot() == Removed(old(Snapshot()), s)
      ensures shownCount == |recordsByKey| == |list|
      ensures shownCount == |old(recordsByKey)| - if Key(s) in old(recordsByKey) then 1 else 0
    {
      ghost var m := Snapshot();
      var k := Key(s);
      if k in recordsByKey {
        var prev := recordsByKey[k];
        recordsByKey := recordsByKey - {Key(prev)};
        list := RemoveFirst(list, prev);
      }
      RemovedMirrors(m, s);
      StatusCounts(m, s);
      UpdateStatus();
    }
  }
}
