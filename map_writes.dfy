/**
 * Writing a sequence of key/value pairs into a map in place, one after
 * another: the later of two writes to the same key wins, and keys that are
 * not written keep their old value.
 */
module MapWrites {

  function Overwrite<V>(m: map<string, V>, pairs: seq<(string, V)>): (r: map<string, V>)
    ensures forall k :: k in r <==> k in m || exists i :: 0 <= i < |pairs| && pairs[i].0 == k
  {
    if pairs == [] then m
    else
      var n := |pairs| - 1;
      var prefix := pairs[..n];
      assert forall i :: 0 <= i < n ==> prefix[i] == pairs[i];
      Overwrite(m, prefix)[pairs[n].0 := pairs[n].1]
  }

  /** A key written by no pair keeps its old binding (or stays absent). */
  lemma {:induction false} OverwriteUnwritten<V>(m: map<string, V>, pairs: seq<(string, V)>, k: string)
    requires forall i :: 0 <= i < |pairs| ==> pairs[i].0 != k
    ensures k in Overwrite(m, pairs) <==> k in m
    ensures k in m ==> Overwrite(m, pairs)[k] == m[k]
  {
    if pairs != [] {
      var n := |pairs| - 1;
      OverwriteUnwritten(m, pairs[..n], k);
    }
  }

  /** A key holds the value of the last pair that writes it. */
  lemma {:induction false} OverwriteLastWrite<V>(m: map<string, V>, pairs: seq<(string, V)>, i: nat)
    requires i < |pairs|
    requires forall j :: i < j < |pairs| ==> pairs[j].0 != pairs[i].0
    ensures pairs[i].0 in Overwrite(m, pairs) && Overwrite(m, pairs)[pairs[i].0] == pairs[i].1
  {
    var n := |pairs| - 1;
    if i < n {
      OverwriteLastWrite(m, pairs[..n], i);
    }
  }

  /** Writing the same pairs a second time changes nothing. */
  lemma OverwriteIdempotent<V>(m: map<string, V>, pairs: seq<(string, V)>)
    ensures Overwrite(Overwrite(m, pairs), pairs) == Overwrite(m, pairs)
  {
    var once := Overwrite(m, pairs);
    var twice := Overwrite(once, pairs);
    forall k | k in twice
      ensures k in once && twice[k] == once[k]
    {
      if i :| 0 <= i < |pairs| && pairs[i].0 == k {
        var last := LastWriter(pairs, i);
        OverwriteLastWrite(m, pairs, last);
        OverwriteLastWrite(once, pairs, last);
      } else {
        OverwriteUnwritten(once, pairs, k);
      }
    }
  }

  /** The last index at or after `i` that writes the same key as pair `i`. */
  lemma LastWriter<V>(pairs: seq<(string, V)>, i: nat) returns (last: nat)
    requires i < |pairs|
    ensures i <= last < |pairs| && pairs[last].0 == pairs[i].0
    ensures forall j :: last < j < |pairs| ==> pairs[j].0 != pairs[i].0
    decreases |pairs| - i
  {
    if j :| i < j < |pairs| && pairs[j].0 == pairs[i].0 {
      last := LastWriter(pairs, j);
    } else {
      last := i;
    }
  }
}
