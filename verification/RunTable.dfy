/** The runs a provider holds, in the order they were submitted: an insertion
    ordered map from run ids, with look-up, removal and in-place change. */
module RunTable {
  import opened Wrappers

  datatype Entry<T> = Entry(id: string, run: T)

  type Table<T> = seq<Entry<T>>

  function Find<T>(table: Table<T>, id: string, i: nat): (r: Option<nat>)
    requires i <= |table|
    ensures r.Some? ==> i <= r.value < |table| && table[r.value].id == id
    ensures r.None? ==> forall k :: i <= k < |table| ==> table[k].id != id
    decreases |table| - i
  {
    if i == |table| then None
    else if table[i].id == id then Some(i)
    else Find(table, id, i + 1)
  }

  function Held<T>(table: Table<T>, id: string): Option<T> {
    match Find(table, id, 0)
    case None => None
    case Some(i) => Some(table[i].run)
  }

  function Without<T>(table: Table<T>, i: nat): Table<T>
    requires i < |table|
  {
    table[..i] + table[i + 1..]
  }

  function With<T>(table: Table<T>, i: nat, run: T): Table<T>
    requires i < |table|
  {
    table[i := Entry(table[i].id, run)]
  }

  lemma WithSame<T>(table: Table<T>, i: nat)
    requires i < |table|
    ensures With(table, i, table[i].run) == table
  {
  }

  /** The first run from `i` on for which the condition holds. */
  function FirstWhere<T>(table: Table<T>, p: T -> bool, i: nat): (r: Option<nat>)
    requires i <= |table|
    ensures r.Some? ==> i <= r.value < |table| && p(table[r.value].run)
    ensures forall k :: i <= k < (if r.Some? then r.value else |table|) ==> !p(table[k].run)
    decreases |table| - i
  {
    if i == |table| then None
    else if p(table[i].run) then Some(i)
    else FirstWhere(table, p, i + 1)
  }

  predicate AnyWhere<T>(table: Table<T>, p: T -> bool) {
    exists i | 0 <= i < |table| :: p(table[i].run)
  }

  ghost predicate UniqueIds<T>(table: Table<T>) {
    forall i, j :: 0 <= i < j < |table| ==> table[i].id != table[j].id
  }

  lemma HeldAt<T>(table: Table<T>, i: nat)
    requires UniqueIds(table) && i < |table|
    ensures Find(table, table[i].id, 0) == Some(i)
  {
  }

  lemma HeldAfterWithout<T>(table: Table<T>, i: nat, id: string)
    requires UniqueIds(table) && i < |table|
    ensures UniqueIds(Without(table, i))
    ensures Held(Without(table, i), id) == if table[i].id == id then None else Held(table, id)
  {
    var left := Without(table, i);
    forall k | 0 <= k < |left| ensures left[k] == table[if k < i then k else k + 1] {
    }
    if table[i].id == id {
      forall k | 0 <= k < |left| ensures left[k].id != id {
      }
    } else if Held(table, id).Some? {
      var k := Find(table, id, 0).value;
      assert left[if k < i then k else k - 1] == table[k];
      HeldAt(left, if k < i then k else k - 1);
    }
  }

  lemma HeldAfterWith<T>(table: Table<T>, i: nat, run: T, id: string)
    requires UniqueIds(table) && i < |table|
    ensures UniqueIds(With(table, i, run))
    ensures Held(With(table, i, run), id) == if table[i].id == id then Some(run) else Held(table, id)
  {
    var after := With(table, i, run);
    forall k | 0 <= k < |table| ensures after[k].id == table[k].id {
    }
    HeldAt(after, i);
    if table[i].id != id && Held(table, id).Some? {
      var k := Find(table, id, 0).value;
      HeldAt(after, k);
    }
  }

  lemma {:induction false} FindAppend<T>(table: Table<T>, e: Entry<T>, id: string, i: nat)
    requires i <= |table|
    ensures Find(table + [e], id, i) ==
      if Find(table, id, i).Some? then Find(table, id, i) else if e.id == id then Some(|table|) else None
    decreases |table| - i
  {
    if i < |table| {
      FindAppend(table, e, id, i + 1);
    } else {
      assert (table + [e])[i] == e;
    }
  }

  lemma HeldAfterAppend<T>(table: Table<T>, e: Entry<T>, id: string)
    requires UniqueIds(table) && Held(table, e.id).None?
    ensures UniqueIds(table + [e])
    ensures Held(table + [e], id) == if e.id == id then Some(e.run) else Held(table, id)
  {
    FindAppend(table, e, id, 0);
  }
}
