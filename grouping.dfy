/**
 * `DataFrame.groupby(key)` with pandas' defaults: one group per distinct key,
 * groups in ascending key order, rows in input order within a group.
 */
module Grouping {
  import opened Text
  import opened Seqs

  /** Adds `k` to an ascending key list, keeping it ascending and free of repeats. */
  function Insert(k: string, keys: seq<string>): (r: seq<string>)
    requires StrictlySorted(keys)
    ensures StrictlySorted(r)
    ensures forall c :: c in r <==> c == k || c in keys
  {
    if keys == [] then [k]
    else if k == keys[0] then keys
    else if Below(k, keys[0]) then
      assert forall j :: 0 < j < |keys| ==> Below(k, keys[j]) by {
        forall j | 0 < j < |keys| ensures Below(k, keys[j]) {
          BelowTransitive(k, keys[0], keys[j]);
        }
      }
      [k] + keys
    else
      var rest := Insert(k, keys[1..]);
      assert forall x :: x in rest ==> Below(keys[0], x) by {
        BelowTotal(k, keys[0]);
        forall x | x in rest ensures Below(keys[0], x) {
          if x != k {
            var j :| 0 <= j < |keys[1..]| && keys[1..][j] == x;
            assert keys[j + 1] == x;
          }
        }
      }
      [keys[0]] + rest
  }

  /** The group keys of `rows`: every key that occurs, once, in ascending order. */
  function GroupKeys<T(!new)>(rows: seq<T>, key: T -> string): (r: seq<string>)
    ensures StrictlySorted(r)
    ensures forall row :: row in rows ==> key(row) in r
    ensures forall c :: c in r ==> exists row :: row in rows && key(row) == c
  {
    if rows == [] then [] else Insert(key(rows[0]), GroupKeys(rows[1..], key))
  }

  /** The rows of the group with key `k`, in input order. */
  function Group<T(!new)>(rows: seq<T>, key: T -> string, k: string): (g: seq<T>)
    ensures forall row :: row in g <==> row in rows && key(row) == k
  {
    Keep(rows, (row: T) => key(row) == k)
  }

  /**
   * A group keeps every row with its key as often as the input has it, and
   * no other row: repeated identical rows are all kept.
   */
  lemma GroupMultiplicity<T(!new)>(rows: seq<T>, key: T -> string, k: string)
    ensures forall x :: multiset(Group(rows, key, k))[x] == if key(x) == k then multiset(rows)[x] else 0
  {
    forall x
      ensures multiset(Group(rows, key, k))[x] == if key(x) == k then multiset(rows)[x] else 0
    {
      KeepMultiplicity(rows, (row: T) => key(row) == k, x);
    }
  }

  /** The total number of rows in the groups named by `keys`. */
  function GroupSizes<T(!new)>(rows: seq<T>, key: T -> string, keys: seq<string>): nat {
    if keys == [] then 0
    else GroupSizes(rows, key, keys[..|keys| - 1]) + |Group(rows, key, keys[|keys| - 1])|
  }

  lemma {:induction false} GroupSizesOfNoRows<T(!new)>(key: T -> string, keys: seq<string>)
    ensures GroupSizes([], key, keys) == 0
  {
    if keys != [] {
      GroupSizesOfNoRows(key, keys[..|keys| - 1]);
    }
  }

  /** Removing the first row removes it from exactly as many groups as its key is listed. */
  lemma {:induction false} GroupSizesStep<T(!new)>(rows: seq<T>, key: T -> string, keys: seq<string>)
    requires rows != []
    ensures GroupSizes(rows, key, keys) == multiset(keys)[key(rows[0])] + GroupSizes(rows[1..], key, keys)
  {
    if keys != [] {
      var init, last := keys[..|keys| - 1], keys[|keys| - 1];
      GroupSizesStep(rows, key, init);
      assert keys == init + [last];
    }
  }

  lemma {:induction false} DistinctOccursOnce(keys: seq<string>, c: string)
    requires Distinct(keys) && c in keys
    ensures multiset(keys)[c] == 1
  {
    var init, last := keys[..|keys| - 1], keys[|keys| - 1];
    assert keys == init + [last];
    if c == last {
      assert c !in init;
    } else {
      DistinctOccursOnce(init, c);
    }
  }

  /**
   * Groups over distinct keys that cover every row partition the rows: their
   * sizes add up to the number of rows.
   */
  lemma {:induction false} GroupSizesTotal<T(!new)>(rows: seq<T>, key: T -> string, keys: seq<string>)
    requires Distinct(keys)
    requires forall row :: row in rows ==> key(row) in keys
    ensures GroupSizes(rows, key, keys) == |rows|
  {
    if rows == [] {
      GroupSizesOfNoRows(key, keys);
    } else {
      GroupSizesStep(rows, key, keys);
      DistinctOccursOnce(keys, key(rows[0]));
      GroupSizesTotal(rows[1..], key, keys);
    }
  }

  /** The count identity of `groupby`: every row lands in exactly one group. */
  lemma GroupKeysPartition<T(!new)>(rows: seq<T>, key: T -> string)
    ensures GroupSizes(rows, key, GroupKeys(rows, key)) == |rows|
  {
    SortedIsDistinct(GroupKeys(rows, key));
    GroupSizesTotal(rows, key, GroupKeys(rows, key));
  }

  /**
   * An ascending list without repeats is determined by its elements, so any
   * correct sort of the distinct keys yields exactly `GroupKeys`.
   */
  lemma {:induction false} AscendingKeysUnique(a: seq<string>, b: seq<string>)
    requires StrictlySorted(a) && StrictlySorted(b)
    requires forall c :: c in a <==> c in b
    ensures a == b
  {
    assert b != [] ==> b[0] in a;
    if a != [] {
      assert a[0] in b;
      assert b[0] in a;
      if a[0] != b[0] {
        var m :| 0 <= m < |b| && b[m] == a[0];
        var n :| 0 <= n < |a| && a[n] == b[0];
        BelowAsymmetric(a[0], b[0]);
      }
      forall c ensures c in a[1..] <==> c in b[1..] {
        TailMembers(a, c);
        TailMembers(b, c);
      }
      AscendingKeysUnique(a[1..], b[1..]);
    }
  }

  /**
   * `GroupKeys` is the ascending list of the keys that occur: any ascending
   * list without repeats holding exactly those keys is equal to it.
   */
  lemma GroupKeysUnique<T(!new)>(rows: seq<T>, key: T -> string, keys: seq<string>)
    requires StrictlySorted(keys)
    requires forall c :: c in keys <==> exists row :: row in rows && key(row) == c
    ensures keys == GroupKeys(rows, key)
  {
    AscendingKeysUnique(keys, GroupKeys(rows, key));
  }

  lemma TailMembers(a: seq<string>, c: string)
    requires StrictlySorted(a) && a != []
    ensures c in a[1..] <==> c in a && c != a[0]
  {
    if c in a[1..] {
      var j :| 0 <= j < |a[1..]| && a[1..][j] == c;
      assert Below(a[0], a[j + 1]);
      BelowIrreflexive(c);
    }
    if c in a && c != a[0] {
      var j :| 0 <= j < |a| && a[j] == c;
      assert a[1..][j - 1] == c;
    }
  }
}
