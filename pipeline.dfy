/** joinContacts: the device stage and the contact stage, the broadcast join
    against the contact map, and the formatting into Puts, composed over
    whole collections. */
module Pipeline {
  import opened Wrappers
  import opened JoinFile
  import opened JavaString
  import opened DeviceData
  import opened ContactData
  import opened Join
  import opened Formatting

  /** The joined records: the device candidates probed against the map that
      View.asMap builds from the numbered contacts. */
  function Joined(devices: seq<string>, contacts: seq<string>): (r: seq<KV<Option<string>>>)
  {
    JoinAll(ContactView(Assigned(contacts, 1)), ExpandAll(devices))
  }

  /** The outcome of the job: on success, all the mutations the Format stage
      produces, in record order; on failure, only the exception that fails
      the job. */
  function JoinContacts(devices: seq<string>, contacts: seq<string>): (r: Result<seq<Mutation>, Exception>)
  {
    match AssignSequence(contacts, 1)
    case Failure(x) => Failure(x)
    case Success(_) => FormatAll(Joined(devices, contacts))
  }

  /** d devices give d * MaxLines joined records; the one for device d and key
      j + 1 has row key device_(j+1) and holds contact line j + 1, or null when
      there are at most j contact lines. */
  lemma JoinedAt(devices: seq<string>, contacts: seq<string>, d: nat, j: nat)
    requires d < |devices| && j < MaxLines
    ensures |Joined(devices, contacts)| == |devices| * MaxLines
    ensures d * MaxLines + j < |Joined(devices, contacts)|
    ensures Joined(devices, contacts)[d * MaxLines + j] ==
      KV(RowKey(devices[d], ValueOf(j + 1)), if j < |contacts| then Some(contacts[j]) else None)
  {
    ExpandAllLength(devices);
    ExpandAllAt(devices, d, j);
    ContactViewOfAssigned(contacts, j + 1);
  }

  /** With pairwise distinct device names every joined record has its own row
      key. */
  lemma JoinedRowKeysDistinct(devices: seq<string>, contacts: seq<string>,
                              d1: nat, j1: nat, d2: nat, j2: nat)
    requires forall a, b :: 0 <= a < b < |devices| ==> devices[a] != devices[b]
    requires d1 < |devices| && j1 < MaxLines && d2 < |devices| && j2 < MaxLines
    requires d1 != d2 || j1 != j2
    ensures d1 * MaxLines + j1 < |Joined(devices, contacts)|
    ensures d2 * MaxLines + j2 < |Joined(devices, contacts)|
    ensures Joined(devices, contacts)[d1 * MaxLines + j1].key !=
            Joined(devices, contacts)[d2 * MaxLines + j2].key
  {
    JoinedAt(devices, contacts, d1, j1);
    JoinedAt(devices, contacts, d2, j2);
    var k1, k2 := ValueOf(j1 + 1), ValueOf(j2 + 1);
    assert '_' !in k1 && '_' !in k2 by {
      assert !IsDigit('_');
    }
    if RowKey(devices[d1], k1) == RowKey(devices[d2], k2) {
      RowKeyInjective(devices[d1], k1, devices[d2], k2);
      ValueOfInjective(j1 + 1, j2 + 1);
    }
  }

  /** The joined record at any index i comes from device i / MaxLines and key
      i % MaxLines + 1. */
  lemma JoinedAtIndex(devices: seq<string>, contacts: seq<string>, i: nat)
    requires i < |devices| * MaxLines
    ensures i < |Joined(devices, contacts)|
    ensures Joined(devices, contacts)[i] ==
      KV(RowKey(devices[i / MaxLines], ValueOf(i % MaxLines + 1)),
         if i % MaxLines < |contacts| then Some(contacts[i % MaxLines]) else None)
  {
    JoinedAt(devices, contacts, i / MaxLines, i % MaxLines);
  }

  /** The join is reached exactly when the contact stage fits the array:
      with at most MaxLines contact lines the job formats the joined records;
      with more it fails before the join (JoinContactsOverflow). */
  lemma JoinReached(devices: seq<string>, contacts: seq<string>)
    requires |contacts| <= MaxLines
    ensures JoinContacts(devices, contacts) == FormatAll(Joined(devices, contacts))
  {
  }

  /** Join completeness: each device meets every numbered contact exactly
      once, so d devices and k <= MaxLines contact lines give d * k joined
      records with a non-null contact; all others carry null. */
  lemma {:induction false} JoinedHits(devices: seq<string>, contacts: seq<string>)
    requires |contacts| <= MaxLines
    ensures Hits(Joined(devices, contacts)) == |devices| * |contacts|
  {
    var k := |contacts|;
    if |devices| > 0 {
      var m := ContactView(Assigned(contacts, 1));
      var one := JoinAll(m, Candidates(devices[0]));
      DeviceHits(devices[0], contacts);
      JoinAllAppend(m, Candidates(devices[0]), ExpandAll(devices[1..]));
      assert Joined(devices, contacts) == one + Joined(devices[1..], contacts);
      HitsAppend(one, Joined(devices[1..], contacts));
      JoinedHits(devices[1..], contacts);
      assert (|devices| - 1) * k + k == |devices| * k;
    }
  }

  /** Key j + 1 of one device finds a contact exactly when there are more
      than j contact lines. */
  lemma DeviceHitAt(device: string, contacts: seq<string>, j: nat)
    requires j < MaxLines
    ensures j < |JoinAll(ContactView(Assigned(contacts, 1)), Candidates(device))|
    ensures JoinAll(ContactView(Assigned(contacts, 1)), Candidates(device))[j].value.Some? <==>
      j < |contacts|
  {
    var m := ContactView(Assigned(contacts, 1));
    var cs := Candidates(device);
    assert cs[j].key == ValueOf(j + 1);
    assert JoinAll(m, cs)[j].value.Some? <==> ValueOf(j + 1) in m;
    ContactViewOfAssigned(contacts, j + 1);
  }

  /** With k <= MaxLines contact lines one device finds a contact for
      exactly its first k keys. */
  lemma {:induction false} DeviceHits(device: string, contacts: seq<string>)
    requires |contacts| <= MaxLines
    ensures Hits(JoinAll(ContactView(Assigned(contacts, 1)), Candidates(device))) == |contacts|
  {
    var k := |contacts|;
    var one := JoinAll(ContactView(Assigned(contacts, 1)), Candidates(device));
    assert |one| == MaxLines;
    forall j | 0 <= j < |one| ensures one[j].value.Some? <==> j < k {
      DeviceHitAt(device, contacts, j);
    }
    HitsOfPrefix(one, k);
  }



  predicate AllWellFormed(contacts: seq<string>) {
    forall j :: 0 <= j < |contacts| ==> |Split(contacts[j])| >= 4
  }

  /** With exactly MaxLines contact lines, each splitting into at least four
      fields, the job succeeds with four mutations per joined record. */
  lemma JoinContactsFull(devices: seq<string>, contacts: seq<string>)
    requires |contacts| == MaxLines && AllWellFormed(contacts)
    ensures JoinContacts(devices, contacts).Success?
    ensures |JoinContacts(devices, contacts).value| == 4 * (|devices| * MaxLines)
  {
    var js := Joined(devices, contacts);
    ExpandAllLength(devices);
    JoinReached(devices, contacts);
    forall i | 0 <= i < |js| ensures FormatRecord(js[i]).Success? {
      JoinedAtIndex(devices, contacts, i);
      var c := contacts[i % MaxLines];
      assert js[i].value == Some(c);
      assert |Split(c)| >= 4;
    }
  }

  /** In that case the mutation for device d, contact j + 1 and column c is
      the Put of field c of contact line j + 1 on row device_(j+1). */
  lemma JoinContactsFullAt(devices: seq<string>, contacts: seq<string>, d: nat, j: nat, c: nat)
    requires |contacts| == MaxLines && AllWellFormed(contacts)
    requires d < |devices| && j < MaxLines && c < 4
    ensures JoinContacts(devices, contacts).Success?
    ensures 4 * (d * MaxLines + j) + c < |JoinContacts(devices, contacts).value|
    ensures JoinContacts(devices, contacts).value[4 * (d * MaxLines + j) + c] ==
      Put(RowKey(devices[d], ValueOf(j + 1)), ContactsFamily, Columns[c], Split(contacts[j])[c])
  {
    JoinContactsFull(devices, contacts);
    JoinedAt(devices, contacts, d, j);
    FormatRecordOutcome(Joined(devices, contacts)[d * MaxLines + j]);
  }

  /** With at least one device and fewer than MaxLines contact lines the job
      always fails: the key |contacts| + 1 misses the map and its null value
      reaches split. When every contact line is well formed, that
      NullPointerException is the failure. */
  lemma JoinContactsShort(devices: seq<string>, contacts: seq<string>)
    requires |devices| >= 1 && |contacts| < MaxLines
    ensures JoinContacts(devices, contacts).Failure?
    ensures AllWellFormed(contacts) ==> JoinContacts(devices, contacts) == Failure(NullPointer)
  {
    var js := Joined(devices, contacts);
    JoinedAt(devices, contacts, 0, |contacts|);
    assert js[|contacts|].value == None;
    if AllWellFormed(contacts) {
      var r := JoinContacts(devices, contacts);
      var i :| 0 <= i < |js| && FormatRecord(js[i]) == Failure(r.error);
      ExpandAllLength(devices);
      JoinedAtIndex(devices, contacts, i);
      FormatRecordOutcome(js[i]);
    }
  }

  /** More than MaxLines contact lines overflow contact_list and fail the job
      before anything is joined. */
  lemma JoinContactsOverflow(devices: seq<string>, contacts: seq<string>)
    requires |contacts| > MaxLines
    ensures JoinContacts(devices, contacts) == Failure(ArrayIndexOutOfBounds(MaxLines + 1))
  {
  }

  /** With at least one device the job succeeds exactly when there are
      MaxLines contact lines and every one of them splits into at least four
      fields. */
  lemma JoinContactsOutcome(devices: seq<string>, contacts: seq<string>)
    requires |devices| >= 1
    ensures JoinContacts(devices, contacts).Success? <==>
      |contacts| == MaxLines && AllWellFormed(contacts)
  {
    if |contacts| == MaxLines && AllWellFormed(contacts) {
      JoinContactsFull(devices, contacts);
    }
    if JoinContacts(devices, contacts).Success? {
      if |contacts| < MaxLines {
        JoinContactsShort(devices, contacts);
      }
      assert |contacts| == MaxLines;
      var js := Joined(devices, contacts);
      JoinReached(devices, contacts);
      forall j | 0 <= j < |contacts| ensures |Split(contacts[j])| >= 4 {
        JoinedAt(devices, contacts, 0, j);
        FormatRecordOutcome(js[j]);
      }
    }
  }

  /** With no devices nothing is joined, so the job succeeds without
      mutations whenever the contact stage does. */
  lemma JoinContactsNoDevices(contacts: seq<string>)
    requires |contacts| <= MaxLines
    ensures JoinContacts([], contacts) == Success([])
  {
  }

  /** The contact "Doe,Jane,555-1234,Janey" becomes four Puts with the values
      Doe, Jane, 555-1234 and Janey on the record's row. */
  lemma FormatExample(device: string, contact: string)
    requires contact == "Doe,Jane,555-1234,Janey"
    ensures FormatRecord(KV(RowKey(device, "1"), Some(contact))) == Success([
      Put(device + "_1", "contacts", "lastname", "Doe"),
      Put(device + "_1", "contacts", "firstname", "Jane"),
      Put(device + "_1", "contacts", "contact", "555-1234"),
      Put(device + "_1", "contacts", "nickname", "Janey")])
  {
    var fs := ["Doe", "Jane", "555-1234", "Janey"];
    assert contact == JoinOn(fs);
    assert RowKey(device, "1") == device + "_1";
    FormatFields(RowKey(device, "1"), fs);
  }

  /** "Doe,Jane,555-1234," has three fields and fails at index 3. */
  lemma MalformedExample(key: string, contact: string)
    requires contact == "Doe,Jane,555-1234,"
    ensures FormatRecord(KV(key, Some(contact))) == Failure(ArrayIndexOutOfBounds(3))
  {
    var fs := ["Doe", "Jane", "555-1234"];
    var all := fs + [""];
    assert all[1..][1..][1..] == [""];
    assert JoinOn(all[1..][1..]) == "555-1234,";
    assert JoinOn(all[1..]) == "Jane,555-1234,";
    assert contact == JoinOn(all);
    FormatTrailingComma(key, fs);
  }

  /** One device and two contact lines: the first two joined records are
      device_1 and device_2 with the two contacts, and key 3 misses the map. */
  lemma TwoContactJoined(device: string, c1: string, c2: string)
    ensures |Joined([device], [c1, c2])| == MaxLines
    ensures Joined([device], [c1, c2])[0] == KV(device + "_1", Some(c1))
    ensures Joined([device], [c1, c2])[1] == KV(device + "_2", Some(c2))
    ensures Joined([device], [c1, c2])[2] == KV(device + "_3", None)
  {
    var devices, contacts := [device], [c1, c2];
    JoinedAt(devices, contacts, 0, 0);
    JoinedAt(devices, contacts, 0, 1);
    JoinedAt(devices, contacts, 0, 2);
    FirstRowKeys(device);
  }

  /** The row keys of a device's first three candidates. */
  lemma FirstRowKeys(device: string)
    ensures RowKey(device, ValueOf(1)) == device + "_1"
    ensures RowKey(device, ValueOf(2)) == device + "_2"
    ensures RowKey(device, ValueOf(3)) == device + "_3"
  {
    assert ValueOf(1) == "1" && ValueOf(2) == "2" && ValueOf(3) == "3";
  }

  /** ... and although both contact lines are well formed (four comma-free
      fields each, the last non-empty, such as "Doe,Jane,555-1,Janey" and
      "Ng,Tom,555-2,Tommy"), the null value of record device_3 fails the job
      with a NullPointerException instead of writing mutations. */
  lemma TwoContactJobFails(device: string, f1: seq<string>, f2: seq<string>)
    requires |f1| == 4 && CommaFree(f1) && f1[3] != ""
    requires |f2| == 4 && CommaFree(f2) && f2[3] != ""
    ensures JoinContacts([device], [JoinOn(f1), JoinOn(f2)]) == Failure(NullPointer)
  {
    var contacts := [JoinOn(f1), JoinOn(f2)];
    SplitJoin(f1);
    SplitJoin(f2);
    assert AllWellFormed(contacts);
    JoinContactsShort([device], contacts);
  }
}
