/** CreateDeviceDataFn: every device name is paired with every sequence key. */
module DeviceData {
  import opened JoinFile
  import opened JavaString

  /** The pairs emitted for one device: ("1", device) ... ("300", device). */
  function Candidates(device: string): (r: seq<KV<string>>)
  {
    seq(MaxLines, i requires 0 <= i < MaxLines => KV(ValueOf(i + 1), device))
  }

  /** processElement of CreateDeviceDataFn: the loop over i = 1 .. MAX_LINES
      emitting (String.valueOf(i), devicename). */
  method ExpandDevice(device: string) returns (out: seq<KV<string>>)
    ensures out == Candidates(device)
  {
    out := [];
    for i := 1 to MaxLines + 1
      invariant |out| == i - 1
      invariant forall j :: 0 <= j < |out| ==> out[j] == KV(ValueOf(j + 1), device)
    {
      out := out + [KV(ValueOf(i), device)];
    }
  }

  /** The expansion yields exactly MaxLines pairs, keyed by the decimal forms
      of 1 .. MaxLines in ascending order, every one carrying the device name
      unchanged, and no two with the same key. */
  lemma CandidatesShape(device: string)
    ensures |Candidates(device)| == MaxLines
    ensures forall j :: 0 <= j < MaxLines ==>
      Candidates(device)[j].key == ValueOf(j + 1) && Candidates(device)[j].value == device
    ensures forall j, k :: 0 <= j < k < MaxLines ==>
      Candidates(device)[j].key != Candidates(device)[k].key
  {
    var c := Candidates(device);
    forall j, k | 0 <= j < k < MaxLines ensures c[j].key != c[k].key {
      if c[j].key == c[k].key {
        ValueOfInjective(j + 1, k + 1);
      }
    }
  }

  /** The device stage over the whole device collection, device by device. */
  function ExpandAll(devices: seq<string>): (r: seq<KV<string>>)
  {
    if |devices| == 0 then [] else Candidates(devices[0]) + ExpandAll(devices[1..])
  }

  /** d devices give d * MaxLines pairs. */
  lemma {:induction false} ExpandAllLength(devices: seq<string>)
    ensures |ExpandAll(devices)| == |devices| * MaxLines
  {
    if |devices| > 0 {
      ExpandAllLength(devices[1..]);
    }
  }

  /** Pair number j of device number d sits at position d * MaxLines + j and
      carries key j + 1 and that device. */
  lemma {:induction false} ExpandAllAt(devices: seq<string>, d: nat, j: nat)
    requires d < |devices| && j < MaxLines
    ensures d * MaxLines + j < |ExpandAll(devices)|
    ensures ExpandAll(devices)[d * MaxLines + j] == KV(ValueOf(j + 1), devices[d])
  {
    ExpandAllLength(devices);
    if d > 0 {
      ExpandAllAt(devices[1..], d - 1, j);
      ExpandAllLength(devices[1..]);
      assert (d - 1) * MaxLines + j + MaxLines == d * MaxLines + j;
    }
  }
}
