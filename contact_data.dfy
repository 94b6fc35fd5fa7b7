/** CreateContactDataFn: numbering the contact lines with the static counter
    sequence_key and recording each line in the static array contact_list. */
module ContactData {
  import opened Wrappers
  import opened JoinFile
  import opened JavaString

  /** The pairs that numbering lines one after another from the key start
      emits: (String.valueOf(start + i), lines[i]). */
  function Assigned(lines: seq<string>, start: nat): (r: seq<KV<string>>)
  {
    seq(|lines|, i requires 0 <= i < |lines| => KV(ValueOf(start + i), lines[i]))
  }

  /** The outcome of the contact stage run over lines when the counter stands
      at start: the first line whose counter is past MaxLines throws, at
      index MaxLines + 1, or at start itself when the counter is already
      beyond it. */
  function AssignSequence(lines: seq<string>, start: nat): (r: Result<seq<KV<string>>, Exception>)
  {
    if start + |lines| > MaxLines + 1 then
      Failure(ArrayIndexOutOfBounds(if start > MaxLines + 1 then start else MaxLines + 1))
    else Success(Assigned(lines, start))
  }

  /** The static state of JoinFile that CreateContactDataFn updates: the
      counter sequence_key and the array contact_list of MAX_LINES + 1 slots
      (null is None). The ghost field processed lists the lines stored so far. */
  class ContactSequencer {
    var sequenceKey: int
    const contactList: array<Option<string>>
    ghost var processed: seq<string>

    /** Slot i (1 <= i) holds the i-th processed line, every other slot is
        still null, and the counter is one past the last slot written. */
    ghost predicate Valid()
      reads this, contactList
    {
      && contactList.Length == MaxLines + 1
      && |processed| <= MaxLines
      && sequenceKey == |processed| + 1
      && contactList[0] == None
      && (forall i :: 1 <= i <= |processed| ==> contactList[i] == Some(processed[i - 1]))
      && (forall i :: |processed| < i <= MaxLines ==> contactList[i] == None)
    }

    /** The class initialisation: sequence_key = 1 and a fresh array of nulls. */
    constructor ()
      ensures Valid() && fresh(contactList)
      ensures sequenceKey == 1 && processed == []
    {
      contactList := new Option<string>[MaxLines + 1](_ => None);
      sequenceKey := 1;
      processed := [];
    }

    /** processElement: stores line at contact_list[sequence_key], emits
        (String.valueOf(sequence_key), line) and increments the counter. When
        the counter is past the array, the store throws and nothing changes. */
    method ProcessElement(line: string) returns (r: Result<KV<string>, Exception>)
      requires Valid()
      modifies this, contactList
      ensures Valid()
      ensures old(sequenceKey) <= MaxLines ==>
        && r == Success(KV(ValueOf(old(sequenceKey)), line))
        && contactList[old(sequenceKey)] == Some(line)
        && (forall i :: 0 <= i < contactList.Length && i != old(sequenceKey) ==>
              contactList[i] == old(contactList[i]))
        && sequenceKey == old(sequenceKey) + 1
        && processed == old(processed) + [line]
    ensures old(sequenceKey) > MaxLines ==>
        && r == Failure(ArrayIndexOutOfBounds(old(sequenceKey)))
        && contactList[..] == old(contactList[..])
        && sequenceKey == old(sequenceKey)
        && processed == old(processed)
    {
      if sequenceKey < 0 || sequenceKey >= contactList.Length {
        return Failure(ArrayIndexOutOfBounds(sequenceKey));
      }
      contactList[sequenceKey] := Some(line);
      r := Success(KV(ValueOf(sequenceKey), line));
      sequenceKey := sequenceKey + 1;
      processed := processed + [line];
    }
  }

  /** The contact ParDo run strictly sequentially over the contact lines: each
      line goes through ProcessElement in order, and the first exception stops
      the stage. */
  method RunContactStage(s: ContactSequencer, lines: seq<string>)
      returns (r: Result<seq<KV<string>>, Exception>)
    requires s.Valid()
    modifies s, s.contactList
    ensures s.Valid()
    ensures r == AssignSequence(lines, old(s.sequenceKey))
    ensures r.Success? ==>
      && s.processed == old(s.processed) + lines
      && s.sequenceKey == old(s.sequenceKey) + |lines|
    ensures r.Failure? ==>
      && s.processed == old(s.processed) + lines[..MaxLines - |old(s.processed)|]
      && s.sequenceKey == MaxLines + 1
  {
    var out: seq<KV<string>> := [];
    var i := 0;
    while i < |lines|
      invariant 0 <= i <= |lines|
      invariant s.Valid()
      invariant s.processed == old(s.processed) + lines[..i]
      invariant s.sequenceKey == old(s.sequenceKey) + i
      invariant out == Assigned(lines[..i], old(s.sequenceKey))
    {
      var e := s.ProcessElement(lines[i]);
      match e {
        case Failure(x) =>
          return Failure(x);
        case Success(kv) =>
          out := out + [kv];
      }
      assert lines[..i + 1] == lines[..i] + [lines[i]];
      i := i + 1;
    }
    assert lines[..i] == lines;
    return Success(out);
  }

  /** The contact stage from the initial state: with k <= MaxLines lines,
      line i sits in slot i for 1 <= i <= k, slot 0 and the slots past k stay
      null, and the counter ends at k + 1; with more lines the first MaxLines
      are stored and line MaxLines + 1 throws. */
  method FreshContactStage(lines: seq<string>)
      returns (s: ContactSequencer, r: Result<seq<KV<string>>, Exception>)
    ensures fresh(s) && fresh(s.contactList) && s.Valid()
    ensures r == AssignSequence(lines, 1)
    ensures s.contactList[0] == None
    ensures |lines| <= MaxLines ==>
      && r.Success?
      && s.sequenceKey == |lines| + 1
      && (forall i :: 1 <= i <= |lines| ==> s.contactList[i] == Some(lines[i - 1]))
      && (forall i :: |lines| < i <= MaxLines ==> s.contactList[i] == None)
    ensures |lines| > MaxLines ==>
      && r == Failure(ArrayIndexOutOfBounds(MaxLines + 1))
      && s.sequenceKey == MaxLines + 1
      && (forall i :: 1 <= i <= MaxLines ==> s.contactList[i] == Some(lines[i - 1]))
  {
    s := new ContactSequencer();
    r := RunContactStage(s, lines);
  }

  predicate DistinctKeys<V>(pairs: seq<KV<V>>) {
    forall i, j :: 0 <= i < j < |pairs| ==> pairs[i].key != pairs[j].key
  }

  /** Numbering from 1 emits the keys "1" .. "k" in order, pairwise distinct. */
  lemma AssignedKeys(lines: seq<string>)
    ensures |Assigned(lines, 1)| == |lines|
    ensures forall i :: 0 <= i < |lines| ==>
      Assigned(lines, 1)[i].key == ValueOf(i + 1) && Assigned(lines, 1)[i].value == lines[i]
    ensures DistinctKeys(Assigned(lines, 1))
  {
    var a := Assigned(lines, 1);
    forall i, j | 0 <= i < j < |a| ensures a[i].key != a[j].key {
      if a[i].key == a[j].key {
        ValueOfInjective(1 + i, 1 + j);
      }
    }
  }

  /** View.asMap of the keyed contact stream: a later pair for the same key
      replaces an earlier one. */
  function ContactView(pairs: seq<KV<string>>): (m: map<string, string>)
    ensures forall k :: k in m <==> exists i :: 0 <= i < |pairs| && pairs[i].key == k
    ensures DistinctKeys(pairs) ==>
      forall i :: 0 <= i < |pairs| ==> pairs[i].key in m && m[pairs[i].key] == pairs[i].value
  {
    if |pairs| == 0 then map[]
    else
      var n := |pairs| - 1;
      var prev := ContactView(pairs[..n]);
      assert forall i :: 0 <= i < n ==> pairs[..n][i] == pairs[i];
      prev[pairs[n].key := pairs[n].value]
  }

  /** The side-input map built from the numbered contacts is a bijection
      between the keys "1" .. "k" and the k lines: "n" is a key exactly when
      1 <= n <= k, and it maps to line n. */
  lemma {:induction false} ContactViewOfAssigned(lines: seq<string>, n: nat)
    ensures ValueOf(n) in ContactView(Assigned(lines, 1)) <==> 1 <= n <= |lines|
    ensures 1 <= n <= |lines| ==> ContactView(Assigned(lines, 1))[ValueOf(n)] == lines[n - 1]
  {
    var a := Assigned(lines, 1);
    AssignedKeys(lines);
    if ValueOf(n) in ContactView(a) {
      var i :| 0 <= i < |a| && a[i].key == ValueOf(n);
      ValueOfInjective(i + 1, n);
    }
    if 1 <= n <= |lines| {
      assert a[n - 1].key == ValueOf(n);
    }
  }

  /** Every key of that map is the decimal form of some n in 1 .. k. */
  lemma ContactViewKeys(lines: seq<string>, key: string)
    requires key in ContactView(Assigned(lines, 1))
    ensures exists n :: 1 <= n <= |lines| && key == ValueOf(n)
  {
    var a := Assigned(lines, 1);
    var i :| 0 <= i < |a| && a[i].key == key;
    assert key == ValueOf(i + 1);
  }
}
