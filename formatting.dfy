/** The "Format" step of joinContacts: a joined record's contact string is
    split on commas and its first four fields become four Puts on the row. */
module Formatting {
  import opened Wrappers
  import opened JoinFile
  import opened JavaString

  /** processElement of the Format DoFn. split on a null value throws a
      NullPointerException; nameList[0] .. nameList[3] are read in that order
      before anything is emitted, so a split with fewer than four fields throws
      at index |fields| and emits no mutation. */
  function FormatRecord(e: KV<Option<string>>): (r: Result<seq<Mutation>, Exception>)
  {
    match e.value
    case None => Failure(NullPointer)
    case Some(v) =>
      var nameList := Split(v);
      if |nameList| < 4 then Failure(ArrayIndexOutOfBounds(|nameList|))
      else
        Success([ Put(e.key, ContactsFamily, LastName, nameList[0]),
                  Put(e.key, ContactsFamily, FirstName, nameList[1]),
                  Put(e.key, ContactsFamily, Contact, nameList[2]),
                  Put(e.key, ContactsFamily, NickName, nameList[3]) ])
  }

  /** Formatting succeeds exactly for a non-null contact string with at least
      three commas and a non-empty piece somewhere from the fourth on; then it
      emits four mutations on the record's row, in family "contacts", column c
      holding field c. A join miss fails with a NullPointerException; too few
      fields fail at the first missing index. */
  lemma FormatRecordOutcome(e: KV<Option<string>>)
    ensures FormatRecord(e).Success? <==>
      && e.value.Some?
      && |Pieces(e.value.value)| >= 4
      && exists j :: 3 <= j < |Pieces(e.value.value)| && Pieces(e.value.value)[j] != ""
    ensures e.value.None? ==> FormatRecord(e) == Failure(NullPointer)
    ensures e.value.Some? && |Split(e.value.value)| < 4 ==>
      FormatRecord(e) == Failure(ArrayIndexOutOfBounds(|Split(e.value.value)|))
    ensures FormatRecord(e).Success? ==>
      && |FormatRecord(e).value| == 4
      && forall c :: 0 <= c < 4 ==>
        FormatRecord(e).value[c] == Put(e.key, ContactsFamily, Columns[c], Split(e.value.value)[c])
  {
    if e.value.Some? {
      SplitAtLeast(e.value.value, 4);
    }
  }

  /** Round trip: four comma-free fields, the last non-empty, joined with
      commas are written back as exactly those four values. */
  lemma FormatFields(key: string, fs: seq<string>)
    requires |fs| == 4 && CommaFree(fs) && fs[3] != ""
    ensures FormatRecord(KV(key, Some(JoinOn(fs)))) == Success([
      Put(key, ContactsFamily, LastName, fs[0]),
      Put(key, ContactsFamily, FirstName, fs[1]),
      Put(key, ContactsFamily, Contact, fs[2]),
      Put(key, ContactsFamily, NickName, fs[3])])
  {
    SplitJoin(fs);
  }

  /** Fields after the fourth are ignored: once a string formats, appending
      ",t" to it changes none of its four mutations. */
  lemma FormatIgnoresExtraFields(key: string, s: string, t: string)
    requires FormatRecord(KV(key, Some(s))).Success?
    ensures FormatRecord(KV(key, Some(s + [Comma] + t))) == FormatRecord(KV(key, Some(s)))
  {
    var r := Split(s);
    assert |r| >= 4;
    SplitAppend(s, t);
  }

  /** A trailing comma adds no field: "a,b,c," has three fields and fails at
      index 3 without emitting anything. */
  lemma FormatTrailingComma(key: string, fs: seq<string>)
    requires |fs| == 3 && CommaFree(fs) && fs[2] != ""
    ensures FormatRecord(KV(key, Some(JoinOn(fs + [""])))) == Failure(ArrayIndexOutOfBounds(3))
  {
    SplitJoinTrailingEmpty(fs, [""]);
  }

  /** The Format ParDo over all joined records; the first record that throws
      fails the whole write. */
  function FormatAll(js: seq<KV<Option<string>>>): (r: Result<seq<Mutation>, Exception>)
    ensures r.Success? <==> forall i :: 0 <= i < |js| ==> FormatRecord(js[i]).Success?
    ensures r.Success? ==> |r.value| == 4 * |js|
    ensures r.Success? ==> forall i, c :: 0 <= i < |js| && 0 <= c < 4 ==>
      r.value[4 * i + c] == FormatRecord(js[i]).value[c]
    ensures r.Failure? ==> exists i :: 0 <= i < |js| && FormatRecord(js[i]) == Failure(r.error)
  {
    if |js| == 0 then Success([])
    else
      var tail := js[1..];
      assert forall i :: 1 <= i < |js| ==> js[i] == tail[i - 1];
      match FormatRecord(js[0])
      case Failure(x) => Failure(x)
      case Success(ms) =>
        match FormatAll(tail)
        case Failure(x) =>
          assert exists i :: 0 <= i < |tail| && FormatRecord(tail[i]) == Failure(x);
          Failure(x)
        case Success(rest) =>
          assert forall i :: 0 <= i < |js| ==>
            FormatRecord(js[i]).Success? && |FormatRecord(js[i]).value| == 4 by {
            forall i | 0 <= i < |js| ensures FormatRecord(js[i]).Success? && |FormatRecord(js[i]).value| == 4 {
              FormatRecordOutcome(js[i]);
            }
          }
          FormatAllConsAt(js, ms, rest);
          Success(ms + rest)
  }

  /** Helper for FormatAll: the mutations of the first record followed by
      those of the others sit at 4 * i + c. */
  lemma FormatAllConsAt(js: seq<KV<Option<string>>>, ms: seq<Mutation>, rest: seq<Mutation>)
    requires |js| >= 1 && FormatRecord(js[0]) == Success(ms)
    requires forall i :: 0 <= i < |js| ==>
      FormatRecord(js[i]).Success? && |FormatRecord(js[i]).value| == 4
    requires |rest| == 4 * (|js| - 1)
    requires forall i, c :: 0 <= i < |js| - 1 && 0 <= c < 4 ==>
      rest[4 * i + c] == FormatRecord(js[1..][i]).value[c]
    ensures forall i, c :: 0 <= i < |js| && 0 <= c < 4 ==>
      (ms + rest)[4 * i + c] == FormatRecord(js[i]).value[c]
  {
    assert |ms| == 4;
    forall i, c | 0 <= i < |js| && 0 <= c < 4
      ensures (ms + rest)[4 * i + c] == FormatRecord(js[i]).value[c]
    {
      if i == 0 {
        assert (ms + rest)[c] == ms[c];
      } else {
        ShiftBlock(ms, rest, i, c);
        assert js[1..][i - 1] == js[i];
      }
    }
  }

  /** Helper for FormatAllConsAt: past a block of four, position 4 * i + c
      falls in the rest at 4 * (i - 1) + c. */
  lemma ShiftBlock(ms: seq<Mutation>, rest: seq<Mutation>, i: int, c: int)
    requires |ms| == 4 && 1 <= i && 0 <= c < 4 && 4 * (i - 1) + c < |rest|
    ensures (ms + rest)[4 * i + c] == rest[4 * (i - 1) + c]
  {
  }
}
