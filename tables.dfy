/** A dictionary built by a loop over rows in which every row that yields a key writes its value and the
    last write wins: the shape of `carregar_bairros` and `carregar_candidatos`. */
module Tables {
  import opened Wrappers

  /** The table after the rows have been written in order, rows whose key is `None` being skipped. */
  function Table<R, K, V>(rows: seq<R>, key: R -> Option<K>, value: R -> V): map<K, V>
  {
    if rows == [] then map[]
    else
      var t := Table(rows[..|rows| - 1], key, value);
      var last := rows[|rows| - 1];
      match key(last)
      case None => t
      case Some(k) => t[k := value(last)]
  }

  /** Row `i` is the last row whose key is `k`. */
  ghost predicate LastWithKey<R, K>(rows: seq<R>, key: R -> Option<K>, k: K, i: int) {
    && 0 <= i < |rows| && key(rows[i]) == Some(k)
    && forall j :: i < j < |rows| ==> key(rows[j]) != Some(k)
  }

  /** The keys of the table are exactly the keys of the rows, and each key holds the value of the last
      row with that key. */
  lemma {:induction false} TableLastWins<R, K, V>(rows: seq<R>, key: R -> Option<K>, value: R -> V)
    ensures forall k :: k in Table(rows, key, value) ==> exists i :: 0 <= i < |rows| && key(rows[i]) == Some(k)
    ensures forall i :: 0 <= i < |rows| && key(rows[i]).Some? ==> key(rows[i]).value in Table(rows, key, value)
    ensures forall k, i :: LastWithKey(rows, key, k, i) ==> Table(rows, key, value)[k] == value(rows[i])
  {
    if rows != [] {
      var init := rows[..|rows| - 1];
      TableLastWins(init, key, value);
      forall k, i | LastWithKey(rows, key, k, i)
        ensures Table(rows, key, value)[k] == value(rows[i])
      {
        if i < |rows| - 1 {
          assert LastWithKey(init, key, k, i);
        }
      }
      forall i | 0 <= i < |rows| && key(rows[i]).Some?
        ensures key(rows[i]).value in Table(rows, key, value)
      {
        if i < |rows| - 1 {
          assert key(init[i]) == key(rows[i]);
        }
      }
      forall k | k in Table(rows, key, value)
        ensures exists i :: 0 <= i < |rows| && key(rows[i]) == Some(k)
      {
        if k in Table(init, key, value) {
          var i :| 0 <= i < |init| && key(init[i]) == Some(k);
          assert key(rows[i]) == Some(k);
        }
      }
    }
  }
}
