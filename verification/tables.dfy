/** Database tables as sequences of rows in id order (every listing query
    of the repository sorts by id), with the lookups the handlers issue:
    "the first row whose column equals k", removal of one row, and the
    `{1: row, 2: row, ...}` numbering the list endpoints return. */
module Tables {
  import opened Wrappers

  /** Index of the first row whose `field` equals `k`. */
  function IndexOf<T, K(==)>(rows: seq<T>, field: T -> K, k: K): (r: Option<nat>)
    ensures r.Some? ==> r.value < |rows| && field(rows[r.value]) == k
    ensures r.Some? ==> forall j :: 0 <= j < r.value ==> field(rows[j]) != k
    ensures r.None? <==> forall j :: 0 <= j < |rows| ==> field(rows[j]) != k
    decreases |rows|
  {
    if |rows| == 0 then None
    else if field(rows[0]) == k then Some(0)
    else match IndexOf(rows[1..], field, k)
      case None => None
      case Some(i) => Some(i + 1)
  }

  ghost predicate Contains<T, K>(rows: seq<T>, field: T -> K, k: K) {
    exists j :: 0 <= j < |rows| && field(rows[j]) == k
  }

  lemma IndexOfFinds<T, K>(rows: seq<T>, field: T -> K, k: K)
    ensures IndexOf(rows, field, k).Some? <==> Contains(rows, field, k)
  {
  }

  /** The lookup only depends on the looked-up column. */
  lemma IndexOfSameColumn<T, K>(a: seq<T>, b: seq<T>, field: T -> K, k: K)
    requires |a| == |b|
    requires forall i :: 0 <= i < |a| ==> field(a[i]) == field(b[i])
    ensures IndexOf(a, field, k) == IndexOf(b, field, k)
  {
  }

  /** Appending a row does not change the lookups that already succeed, and a
      lookup that fails before finds the new row exactly when it matches. */
  lemma IndexOfAppend<T, K>(rows: seq<T>, x: T, field: T -> K, k: K)
    ensures IndexOf(rows + [x], field, k)
         == match IndexOf(rows, field, k)
            case Some(i) => Some(i)
            case None => if field(x) == k then Some(|rows|) else None
  {
    var s := rows + [x];
    var r := IndexOf(rows, field, k);
    var r' := IndexOf(s, field, k);
    if r.Some? {
      assert field(s[r.value]) == k;
    } else {
      assert forall j :: 0 <= j < |rows| ==> field(s[j]) != k;
      if field(x) == k {
        assert field(s[|rows|]) == k;
      }
    }
  }

  /** The key column strictly increases along the table (SERIAL ids). */
  ghost predicate KeysIncreasing<T>(rows: seq<T>, key: T -> nat) {
    forall i, j :: 0 <= i < j < |rows| ==> key(rows[i]) < key(rows[j])
  }

  /** Every key is below the table's next SERIAL value. */
  ghost predicate KeysBelow<T>(rows: seq<T>, key: T -> nat, next: nat) {
    forall i :: 0 <= i < |rows| ==> key(rows[i]) < next
  }

  /** With increasing keys, looking a row's key up finds that very row. */
  lemma IndexOfKey<T>(rows: seq<T>, key: T -> nat, i: nat)
    requires KeysIncreasing(rows, key)
    requires i < |rows|
    ensures IndexOf(rows, key, key(rows[i])) == Some(i)
  {
  }

  /** A row appended with the next SERIAL key keeps the table well keyed. */
  lemma AppendKeeps<T>(rows: seq<T>, key: T -> nat, next: nat, x: T)
    requires KeysIncreasing(rows, key) && KeysBelow(rows, key, next)
    requires key(x) == next
    ensures KeysIncreasing(rows + [x], key) && KeysBelow(rows + [x], key, next + 1)
  {
  }

  /** Overwriting rows without touching their keys keeps the table well keyed. */
  lemma SameKeysKeep<T>(a: seq<T>, b: seq<T>, key: T -> nat, next: nat)
    requires KeysIncreasing(a, key) && KeysBelow(a, key, next)
    requires |a| == |b|
    requires forall i :: 0 <= i < |a| ==> key(a[i]) == key(b[i])
    ensures KeysIncreasing(b, key) && KeysBelow(b, key, next)
  {
  }

  /** The table without row `i`, as `DELETE ... WHERE id = ...` leaves it. */
  function RemoveAt<T>(rows: seq<T>, i: nat): (r: seq<T>)
    requires i < |rows|
    ensures |r| == |rows| - 1
    ensures forall j :: 0 <= j < i ==> r[j] == rows[j]
    ensures forall j :: i <= j < |r| ==> r[j] == rows[j + 1]
  {
    rows[..i] + rows[i + 1..]
  }

  /** Every row but row `i` survives a removal, and nothing else appears. */
  lemma RemoveAtRows<T>(rows: seq<T>, i: nat)
    requires i < |rows|
    ensures forall x :: x in RemoveAt(rows, i) ==> x in rows
    ensures forall j :: 0 <= j < |rows| && j != i ==> rows[j] in RemoveAt(rows, i)
  {
    var r := RemoveAt(rows, i);
    forall j | 0 <= j < |rows| && j != i
      ensures rows[j] in r
    {
      if j < i { assert r[j] == rows[j]; } else { assert r[j - 1] == rows[j]; }
    }
  }

  lemma RemoveKeeps<T>(rows: seq<T>, key: T -> nat, next: nat, i: nat)
    requires KeysIncreasing(rows, key) && KeysBelow(rows, key, next)
    requires i < |rows|
    ensures KeysIncreasing(RemoveAt(rows, i), key) && KeysBelow(RemoveAt(rows, i), key, next)
  {
    var r := RemoveAt(rows, i);
    forall a, b | 0 <= a < b < |r|
      ensures key(r[a]) < key(r[b])
    {
      var a' := if a < i then a else a + 1;
      var b' := if b < i then b else b + 1;
      assert r[a] == rows[a'] && r[b] == rows[b'];
    }
  }

  /** The response dictionary `{i + 1: rows[i]}` built by the list handlers. */
  function Numbered<T>(rows: seq<T>): (m: map<nat, T>)
    ensures forall n :: n in m <==> 1 <= n <= |rows|
    ensures forall n :: 1 <= n <= |rows| ==> m[n] == rows[n - 1]
    decreases |rows|
  {
    if |rows| == 0 then map[]
    else Numbered(rows[..|rows| - 1])[|rows| := rows[|rows| - 1]]
  }
}
