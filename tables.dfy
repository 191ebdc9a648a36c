/** Auto-increment database tables and the queries the views run against them. */
module Tables {

  datatype Option<+T> = None | Some(value: T) {
    /** The value, or `default` when absent (Python's `d.get(key, default)`). */
    function GetOr(default: T): T {
      match this
      case Some(v) => v
      case None => default
    }
  }

  /**
   * A table whose primary key is an auto-increment integer: `rows` maps each key to
   * its row and `next` is the key the next insert receives. Django hands out keys in
   * increasing order and never reuses one, so `filter(...).first()` (which orders by
   * primary key) picks the row with the lowest key.
   */
  datatype Table<V> = Table(rows: map<nat, V>, next: nat) {

    /** Every key was handed out by an earlier insert. */
    ghost predicate Valid() {
      forall k :: k in rows ==> k < next
    }

    /** INSERT: the new row receives key `next`, which no row has yet. */
    function Insert(v: V): (t: Table<V>)
      ensures t.rows == rows[next := v] && t.next == next + 1
      ensures Valid() ==> next !in rows && t.Valid()
    {
      Table(rows[next := v], next + 1)
    }

    /** UPDATE of one existing row. */
    function Set(k: nat, v: V): (t: Table<V>)
      requires k in rows
      ensures t.rows == rows[k := v] && t.next == next && t.rows.Keys == rows.Keys
      ensures Valid() ==> t.Valid()
    {
      Table(rows[k := v], next)
    }

    /** DELETE of one row by key. */
    function Remove(k: nat): (t: Table<V>)
      ensures t.next == next && t.rows.Keys == rows.Keys - {k}
      ensures forall j :: j in t.rows ==> t.rows[j] == rows[j]
      ensures Valid() ==> t.Valid()
    {
      Table(rows - {k}, next)
    }

    /** DELETE of every row satisfying `p`. */
    function DeleteWhere(p: V -> bool): (t: Table<V>)
      ensures t.next == next
      ensures forall k :: k in t.rows <==> k in rows && !p(rows[k])
      ensures forall k :: k in t.rows ==> t.rows[k] == rows[k]
      ensures Valid() ==> t.Valid()
    {
      Table(map k | k in rows && !p(rows[k]) :: rows[k], next)
    }

    /** The lowest key at or above `lo` whose row satisfies `p`. */
    function FirstFrom(p: V -> bool, lo: nat): (r: Option<nat>)
      decreases next - lo
      ensures r.Some? ==> lo <= r.value < next && r.value in rows && p(rows[r.value])
      ensures r.Some? ==> forall k :: lo <= k < r.value && k in rows ==> !p(rows[k])
      ensures r.None? ==> forall k :: lo <= k < next && k in rows ==> !p(rows[k])
    {
      if lo >= next then None
      else if lo in rows && p(rows[lo]) then Some(lo)
      else FirstFrom(p, lo + 1)
    }

    /** `filter(p).first()`: the row with the lowest key satisfying `p`, if any. */
    function First(p: V -> bool): (r: Option<nat>)
      ensures r.Some? ==> r.value in rows && p(rows[r.value])
      ensures r.Some? ==> forall k :: k in rows && k < r.value ==> !p(rows[k])
      ensures Valid() && r.None? ==> forall k :: k in rows ==> !p(rows[k])
    {
      FirstFrom(p, 0)
    }

    /** The keys at or above `lo` whose rows satisfy `p`, in ascending order. */
    function KeysFrom(p: V -> bool, lo: nat): (ks: seq<nat>)
      decreases next - lo
      ensures forall i :: 0 <= i < |ks| ==> lo <= ks[i] < next && ks[i] in rows && p(rows[ks[i]])
      ensures forall i, j :: 0 <= i < j < |ks| ==> ks[i] < ks[j]
      ensures forall k :: lo <= k < next && k in rows && p(rows[k]) ==> k in ks
    {
      if lo >= next then []
      else if lo in rows && p(rows[lo]) then [lo] + KeysFrom(p, lo + 1)
      else KeysFrom(p, lo + 1)
    }

    /** `filter(p)` in key order: every matching row exactly once. */
    function Keys(p: V -> bool): (ks: seq<nat>)
      ensures forall i :: 0 <= i < |ks| ==> ks[i] in rows && p(rows[ks[i]])
      ensures forall i, j :: 0 <= i < j < |ks| ==> ks[i] < ks[j]
      ensures Valid() ==> forall k :: k in rows && p(rows[k]) ==> k in ks
    {
      KeysFrom(p, 0)
    }
  }

  /** Two tables whose rows agree on `p` at every key answer `First(p)` alike. */
  lemma {:induction false} FirstFromAgrees<V>(t: Table<V>, u: Table<V>, p: V -> bool, lo: nat)
    requires t.next == u.next && t.rows.Keys == u.rows.Keys
    requires forall k :: k in t.rows ==> p(t.rows[k]) == p(u.rows[k])
    ensures t.FirstFrom(p, lo) == u.FirstFrom(p, lo)
    decreases t.next - lo
  {
    if lo < t.next {
      FirstFromAgrees(t, u, p, lo + 1);
    }
  }

  /** Deleting the row just inserted restores the rows (the sequence has moved on). */
  lemma InsertThenRemove<V>(t: Table<V>, v: V)
    requires t.Valid()
    ensures t.Insert(v).Remove(t.next).rows == t.rows
  {
    assert t.next !in t.rows;
  }

  /** Writing a row's old value back restores the rows. */
  lemma SetBack<V>(t: Table<V>, k: nat, v: V)
    requires k in t.rows
    ensures t.Set(k, v).Set(k, t.rows[k]) == t
  {
  }

  /** Writing a row's own value back changes nothing. */
  lemma SetSame<V>(t: Table<V>, k: nat)
    requires k in t.rows
    ensures t.Set(k, t.rows[k]) == t
  {
  }
}
