/**
 * The per-user link tables of the data store (user_clinics, user_providers,
 * patient_drugs): rows in insertion order, each owned by a user, with a key
 * (the clinic, provider or drug id) and the rest of the row.
 */
module Tables {
  datatype Row<K, V> = Row(userId: string, key: K, data: V)

  type Table<K, V> = seq<Row<K, V>>

  /** select ... eq('user_id', user): the user's rows, in table order. */
  function RowsFor<K(==), V(==)>(t: Table<K, V>, user: string): (r: Table<K, V>)
    ensures |r| <= |t|
    ensures forall i :: 0 <= i < |r| ==> r[i] in t && r[i].userId == user
    ensures forall i :: 0 <= i < |t| && t[i].userId == user ==> t[i] in r
  {
    if t == [] then []
    else (if t[0].userId == user then [t[0]] else []) + RowsFor(t[1..], user)
  }

  /** delete().eq('user_id', user): every row of the user goes, the others stay in order. */
  function DeleteFor<K(==), V(==)>(t: Table<K, V>, user: string): (r: Table<K, V>)
    ensures forall i :: 0 <= i < |r| ==> r[i] in t && r[i].userId != user
    ensures forall i :: 0 <= i < |t| && t[i].userId != user ==> t[i] in r
  {
    if t == [] then []
    else (if t[0].userId != user then [t[0]] else []) + DeleteFor(t[1..], user)
  }

  /** delete().eq('user_id', user).eq(key column, key): the user's rows with that key go. */
  function DeleteKey<K(==), V(==)>(t: Table<K, V>, user: string, key: K): (r: Table<K, V>)
    ensures forall i :: 0 <= i < |r| ==> r[i] in t && !(r[i].userId == user && r[i].key == key)
    ensures forall i :: 0 <= i < |t| && !(t[i].userId == user && t[i].key == key) ==> t[i] in r
  {
    if t == [] then []
    else (if !(t[0].userId == user && t[0].key == key) then [t[0]] else []) + DeleteKey(t[1..], user, key)
  }

  /** The table holds at most one row for every user. */
  ghost predicate AtMostOnePerUser<K, V>(t: Table<K, V>) {
    forall user :: |RowsFor(t, user)| <= 1
  }

  // ---------------------------------------------------------------------
  // Lemmas

  /** Two rows of one user, even two equal ones, break the one-row-per-user invariant. */
  lemma TwoRowsBreakAtMostOne<K, V>(t: Table<K, V>, i: int, j: int)
    requires 0 <= i < j < |t| && t[i].userId == t[j].userId
    ensures !AtMostOnePerUser(t)
  {
    var user := t[i].userId;
    var rows := RowsFor(t, user);
    var x, y := t[i], t[j];
    assert x in rows && y in rows;
    if x == y {
      assert multiset(t)[x] >= 2 by {
        assert t == t[..j] + t[j..];
        assert x in t[..j] && x in t[j..];
      }
      assert multiset(rows)[x] >= 2 by {
        RowsForCount(t, user);
      }
    }
    assert |rows| >= 2;
  }

  /** RowsFor keeps each of the user's rows as often as the table holds it, and no other row. */
  lemma {:induction false} RowsForCount<K, V>(t: Table<K, V>, user: string)
    ensures forall x :: multiset(RowsFor(t, user))[x] == if x.userId == user then multiset(t)[x] else 0
    decreases |t|
  {
    if t != [] {
      RowsForCount(t[1..], user);
      assert t == [t[0]] + t[1..];
    }
  }

  lemma {:induction false} RowsForAppend<K, V>(a: Table<K, V>, b: Table<K, V>, user: string)
    ensures RowsFor(a + b, user) == RowsFor(a, user) + RowsFor(b, user)
    decreases |a|
  {
    if a == [] {
      assert a + b == b;
    } else {
      assert (a + b)[0] == a[0];
      assert (a + b)[1..] == a[1..] + b;
      RowsForAppend(a[1..], b, user);
    }
  }

  /** After deleting a user's rows, the user has none and every other user keeps theirs. */
  lemma {:induction false} RowsForDeleteFor<K, V>(t: Table<K, V>, user: string, other: string)
    ensures RowsFor(DeleteFor(t, user), user) == []
    ensures other != user ==> RowsFor(DeleteFor(t, user), other) == RowsFor(t, other)
    decreases |t|
  {
    if t != [] {
      RowsForDeleteFor(t[1..], user, other);
      var head := if t[0].userId != user then [t[0]] else [];
      RowsForAppend(head, DeleteFor(t[1..], user), user);
      RowsForAppend(head, DeleteFor(t[1..], user), other);
    }
  }

  /** Deleting by user and key never adds a row for anyone, and touches no other user. */
  lemma {:induction false} RowsForDeleteKey<K, V>(t: Table<K, V>, user: string, key: K, other: string)
    ensures |RowsFor(DeleteKey(t, user, key), other)| <= |RowsFor(t, other)|
    ensures other != user ==> RowsFor(DeleteKey(t, user, key), other) == RowsFor(t, other)
    decreases |t|
  {
    if t != [] {
      RowsForDeleteKey(t[1..], user, key, other);
      var head := if !(t[0].userId == user && t[0].key == key) then [t[0]] else [];
      RowsForAppend(head, DeleteKey(t[1..], user, key), other);
    }
  }

  /**
   * Replacing a user's row (delete all of theirs, then insert one) leaves the
   * user with exactly the new row and every other user with what they had.
   */
  lemma Replace<K, V>(t: Table<K, V>, row: Row<K, V>, other: string)
    ensures RowsFor(DeleteFor(t, row.userId) + [row], row.userId) == [row]
    ensures other != row.userId ==> RowsFor(DeleteFor(t, row.userId) + [row], other) == RowsFor(t, other)
  {
    RowsForDeleteFor(t, row.userId, other);
    RowsForAppend(DeleteFor(t, row.userId), [row], row.userId);
    RowsForAppend(DeleteFor(t, row.userId), [row], other);
    assert RowsFor([row], row.userId) == [row];
  }

  /** A replace keeps the table at one row per user. */
  lemma ReplaceKeepsAtMostOne<K, V>(t: Table<K, V>, row: Row<K, V>)
    requires AtMostOnePerUser(t)
    ensures AtMostOnePerUser(DeleteFor(t, row.userId) + [row])
  {
    forall user ensures |RowsFor(DeleteFor(t, row.userId) + [row], user)| <= 1 {
      Replace(t, row, user);
    }
  }

  /** Deleting a user's rows, or some of them by key, keeps the table at one row per user. */
  lemma DeleteKeepsAtMostOne<K, V>(t: Table<K, V>, user: string, key: K)
    requires AtMostOnePerUser(t)
    ensures AtMostOnePerUser(DeleteFor(t, user))
    ensures AtMostOnePerUser(DeleteKey(t, user, key))
  {
    forall other ensures |RowsFor(DeleteFor(t, user), other)| <= 1 {
      RowsForDeleteFor(t, user, other);
    }
    forall other ensures |RowsFor(DeleteKey(t, user, key), other)| <= 1 {
      RowsForDeleteKey(t, user, key, other);
    }
  }
}
