/** Reading a table in primary-key order. The queries of the API carry no
    ORDER BY; the model fixes the order a database usually returns, by
    ascending id, so that paging is a function of the store. */
module Query {

  ghost predicate Distinct<T>(s: seq<T>) {
    forall i, j :: 0 <= i < j < |s| ==> s[i] != s[j]
  }

  ghost predicate Increasing(s: seq<nat>) {
    forall i, j :: 0 <= i < j < |s| ==> s[i] < s[j]
  }

  /** The ids of `table` below `n`, ascending. */
  function KeysBelow<T>(table: map<nat, T>, n: nat): (ks: seq<nat>)
    ensures Increasing(ks)
    ensures forall i :: 0 <= i < |ks| ==> ks[i] in table && ks[i] < n
    ensures forall k :: k in table && k < n ==> k in ks
  {
    if n == 0 then []
    else
      var front := KeysBelow(table, n - 1);
      if n - 1 in table then
        AppendLarger(front, n - 1);
        front + [n - 1]
      else front
  }

  /** Appending a key larger than every key keeps the keys ascending. */
  lemma AppendLarger(ks: seq<nat>, k: nat)
    requires Increasing(ks)
    requires forall i :: 0 <= i < |ks| ==> ks[i] < k
    ensures Increasing(ks + [k])
  {
    var r := ks + [k];
    forall i, j | 0 <= i < j < |r| ensures r[i] < r[j] {
      assert r[i] == ks[i];
    }
  }

  /** The rows stored under `ks`, in that order. */
  function Rows<T>(table: map<nat, T>, ks: seq<nat>): (r: seq<T>)
    requires forall i :: 0 <= i < |ks| ==> ks[i] in table
    ensures |r| == |ks|
    ensures forall i :: 0 <= i < |r| ==> r[i] == table[ks[i]]
  {
    seq(|ks|, i requires 0 <= i < |ks| => table[ks[i]])
  }

  /** The stored ids below `n` are those below `n - 1`, and `n - 1` when stored. */
  lemma BelowStep<T>(table: map<nat, T>, n: nat)
    requires n > 0
    ensures (set k | k in table && k < n) ==
            (set k | k in table && k < n - 1) + (if n - 1 in table then {n - 1} else {})
  {
  }

  /** Reading every id below `n` yields one row per stored id below `n`. */
  lemma {:induction false} KeysBelowCount<T>(table: map<nat, T>, n: nat)
    ensures |KeysBelow(table, n)| == |set k | k in table && k < n|
  {
    if n > 0 {
      KeysBelowCount(table, n - 1);
      BelowStep(table, n);
      var before := set k | k in table && k < n - 1;
      if n - 1 in table {
        assert |KeysBelow(table, n)| == |KeysBelow(table, n - 1)| + 1;
        assert n - 1 !in before;
        assert |before + {n - 1}| == |before| + 1;
      } else {
        assert KeysBelow(table, n) == KeysBelow(table, n - 1);
      }
    }
  }

  /** A table whose ids are all below `n` is read in full. */
  lemma AllKeysBelow<T>(table: map<nat, T>, n: nat)
    requires forall k :: k in table ==> k < n
    ensures |KeysBelow(table, n)| == |table|
  {
    KeysBelowCount(table, n);
    assert (set k | k in table && k < n) == table.Keys;
  }

  /** A sequence without repeats has as many elements as its set. */
  lemma {:induction false} DistinctCard<T>(s: seq<T>)
    requires Distinct(s)
    ensures |set x | x in s| == |s|
  {
    if s != [] {
      var rest := s[1..];
      assert Distinct(rest) by {
        forall i, j | 0 <= i < j < |rest| ensures rest[i] != rest[j] {
          assert rest[i] == s[i + 1] && rest[j] == s[j + 1];
        }
      }
      DistinctCard(rest);
      assert s[0] !in rest by {
        forall i | 0 <= i < |rest| ensures rest[i] != s[0] {
          assert rest[i] == s[i + 1];
        }
      }
      assert (set x | x in s) == (set x | x in rest) + {s[0]} by {
        assert s == [s[0]] + rest;
      }
    }
  }
}
