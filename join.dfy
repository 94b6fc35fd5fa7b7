/** The "Process" step of joinContacts: each (sequence key, device) pair is
    looked up in the complete contact map read as a side input. */
module Join {
  import opened Wrappers
  import opened JoinFile

  /** The row key device + "_" + seq. */
  function RowKey(device: string, seqKey: string): (r: string)
    ensures |r| == |device| + 1 + |seqKey|
    ensures r[..|device|] == device && r[|device|] == '_' && r[|device| + 1..] == seqKey
  {
    device + "_" + seqKey
  }

  /** One joined record: the row key and contactMap.get(seq), null when the
      key is absent. */
  function JoinOne(contactMap: map<string, string>, e: KV<string>): (r: KV<Option<string>>)
  {
    KV(RowKey(e.value, e.key), if e.key in contactMap then Some(contactMap[e.key]) else None)
  }

  /** The Process ParDo over the whole device-candidate stream. */
  function JoinAll(contactMap: map<string, string>, es: seq<KV<string>>): (r: seq<KV<Option<string>>>)
    ensures |r| == |es|
  {
    seq(|es|, i requires 0 <= i < |es| => JoinOne(contactMap, es[i]))
  }

  /** The number of joined records whose contact value is not null. */
  function Hits(js: seq<KV<Option<string>>>): (n: nat)
    ensures n <= |js|
  {
    if |js| == 0 then 0 else (if js[0].value.Some? then 1 else 0) + Hits(js[1..])
  }

  lemma {:induction false} HitsAppend(a: seq<KV<Option<string>>>, b: seq<KV<Option<string>>>)
    ensures Hits(a + b) == Hits(a) + Hits(b)
  {
    if |a| == 0 {
      assert a + b == b;
    } else {
      assert (a + b)[1..] == a[1..] + b;
      HitsAppend(a[1..], b);
    }
  }

  /** Records whose values are non-null exactly at the first k positions
      count k hits. */
  lemma {:induction false} HitsOfPrefix(js: seq<KV<Option<string>>>, k: nat)
    requires k <= |js|
    requires forall j :: 0 <= j < |js| ==> (js[j].value.Some? <==> j < k)
    ensures Hits(js) == k
  {
    if |js| > 0 {
      var k' := if k > 0 then k - 1 else 0;
      assert forall j :: 0 <= j < |js| - 1 ==> js[1..][j] == js[j + 1];
      HitsOfPrefix(js[1..], k');
    }
  }

  /** The join distributes over concatenated inputs. */
  lemma JoinAllAppend(contactMap: map<string, string>, a: seq<KV<string>>, b: seq<KV<string>>)
    ensures JoinAll(contactMap, a + b) == JoinAll(contactMap, a) + JoinAll(contactMap, b)
  {
  }

  /** The row key can be taken apart again when the sequence key holds no
      underscore: the last underscore separates device and key. */
  lemma RowKeyInjective(d1: string, s1: string, d2: string, s2: string)
    requires '_' !in s1 && '_' !in s2
    requires RowKey(d1, s1) == RowKey(d2, s2)
    ensures d1 == d2 && s1 == s2
  {
    var x := RowKey(d1, s1);
    assert |x| == |d1| + 1 + |s1| == |d2| + 1 + |s2|;
    assert x[|d1|] == '_' && x[|d2|] == '_';
    assert forall i :: 0 <= i < |s1| ==> x[|d1| + 1 + i] == s1[i];
    assert forall i :: 0 <= i < |s2| ==> x[|d2| + 1 + i] == s2[i];
    assert |s1| == |s2|;
    assert d1 == x[..|d1|] && d2 == x[..|d2|];
    assert s1 == x[|d1| + 1..] && s2 == x[|d2| + 1..];
  }
}
