# JoinFile: a Dafny model of the device/contact join pipeline

`JoinFile` is a Beam pipeline that joins two flat text files, a device
listing and a contact listing of 300 rows, and writes the result into
Bigtable as column mutations. The files share no join key. So the pipeline
numbers the contact lines with a static counter. It pairs every device
with every number from 1 to 300. It looks each pair up in the numbered
contacts, which are read as a map side input. It then splits each contact
string on commas into four Puts on the row `<device>_<number>`.

This project models those four per-element steps. It also models the two
`java.lang.String` operations they depend on, and the whole pipeline
composed over sequences. The modules are:

- `Wrappers`: `Option` (a Java reference that may be null) and `Result` (a
  value or a thrown exception).
- `JavaString`: `String.valueOf(int)` for non-negative values (`ValueOf`),
  and `ParseDecimal`, which reads it back (a left inverse: "01" also reads
  as 1). Also `s.split(",")` with Java's rules
  (`Split`): a string without a comma splits to itself, and trailing empty
  fields are removed. It rests on the comma pieces (`Pieces`) and their
  inverse (`JoinOn`).
- `JoinFile`: the constants (`MaxLines` = 300, the family `contacts`, the
  four columns in emission order), Beam's `KV`, one `Put` as `Mutation`,
  and the two exceptions that can be thrown.
- `DeviceData`: `CreateDeviceDataFn`. The method `ExpandDevice` has the
  source's loop and is proved equal to the function `Candidates`.
  `ExpandAll` is that stage over all devices.
- `ContactData`: `CreateContactDataFn`. The class `ContactSequencer` holds
  the static counter `sequenceKey` and the array `contactList` of 301 slots,
  where null is `None`. A ghost list `processed` records the lines stored
  so far, and the invariant `Valid()` ties the array and the counter to it.
  `ProcessElement` is the per-line step. `RunContactStage` runs the stage
  strictly in sequence over a list of lines, and `FreshContactStage` does
  the same from the initial state. `AssignSequence` is the stage's outcome
  as a function: it fails with index 301 once the counter passes 300, and
  otherwise gives the pairs `Assigned(lines, start)`. (From a counter already past 301 it fails at that counter.) `RunContactStage` is
  proved equal to it. `ContactView` is `View.asMap` of the
  keyed stream.
- `Join`: the "Process" DoFn (`JoinOne`, `JoinAll`, `RowKey`).
- `Formatting`: the "Format" DoFn (`FormatRecord`) and that stage over all
  joined records (`FormatAll`).
- `Pipeline`: `joinContacts` composed (`Joined`, `JoinContacts`), with
  end-to-end properties.

Java exceptions are modelled as results, not preconditions:
- A 301st contact line makes `contact_list[301]` throw
  `ArrayIndexOutOfBoundsException` before the counter moves. The model
  returns `ArrayIndexOutOfBounds(301)` and leaves the state unchanged.
- A join miss carries a null value, and `split` on it throws
  `NullPointerException`.
- A split with fewer than four fields throws at the first missing index.
  That index equals the number of fields. All four fields are read before
  the first output, so a failing record emits nothing.
- Any exception fails the whole job. `FormatAll` reports the first failing
  record in sequence order.

With one device and two well-formed contact lines the job fails instead of
succeeding with two rows and eight mutations. `MAX_LINES` is fixed at 300, so every device yields 300
candidates. Keys 3 to 300 miss the map, and the job fails with a
`NullPointerException` (`Pipeline.TwoContactJoined`,
`Pipeline.TwoContactJobFails`); with malformed lines it may fail at a field
index instead. With at least one device, the job succeeds
exactly when there are 300 contact lines that all split into at least four
fields (`Pipeline.JoinContactsOutcome`). With no devices there is nothing
to format, and any list of at most 300 contact lines succeeds with no
mutations (`Pipeline.JoinContactsNoDevices`).

Row keys are distinct only when device names are (`Pipeline.JoinedRowKeysDistinct`
assumes this). The program does not check it: a device file can list a name
twice, and then two joined records share a row key and their Puts write the
same cells.

## Model

| member | source | states |
|---|---|---|
| `JavaString.ValueOf` | src/main/java/org/apache/beam/gcp/JoinFile.java:144 | the key text is a non-empty run of decimal digits with no leading zero, so it never holds an underscore |
| `JavaString.ParseValueOf` | src/main/java/org/apache/beam/gcp/JoinFile.java:162 | reading the printed counter back as a decimal number gives the counter |
| `JavaString.ValueOfInjective` | src/main/java/org/apache/beam/gcp/JoinFile.java:162 | distinct counter values are printed as distinct keys |
| `JavaString.StripTrailingEmpty` | src/main/java/org/apache/beam/gcp/JoinFile.java:118 | the result is a prefix of the pieces, ends in a non-empty piece, and only empty pieces follow it |
| `JavaString.PiecesCommaFree` | src/main/java/org/apache/beam/gcp/JoinFile.java:118 | no piece between commas contains a comma |
| `JavaString.JoinPieces` | src/main/java/org/apache/beam/gcp/JoinFile.java:118 | joining the comma pieces with commas gives back the original string |
| `JavaString.PiecesJoinOn` | src/main/java/org/apache/beam/gcp/JoinFile.java:118 | comma-free fields joined with commas cut back into exactly those fields |
| `JavaString.PiecesAppend` | src/main/java/org/apache/beam/gcp/JoinFile.java:118 | the pieces of s + "," + t are those of s followed by those of t |
| `JavaString.Split` | src/main/java/org/apache/beam/gcp/JoinFile.java:118 | `s.split(",")`: a string without a comma is its own single field, otherwise the comma pieces without the trailing empty ones; its properties are stated by `SplitCommaFree`, `SplitJoin`, `SplitJoinTrailingEmpty`, `SplitAtLeast` and `SplitAppend` |
| `JavaString.SplitCommaFree` | src/main/java/org/apache/beam/gcp/JoinFile.java:118 | every field returned by split(",") is comma-free |
| `JavaString.SplitJoin` | src/main/java/org/apache/beam/gcp/JoinFile.java:118 | split(",") is the inverse of joining comma-free fields whose last field is non-empty |
| `JavaString.SplitJoinTrailingEmpty` | src/main/java/org/apache/beam/gcp/JoinFile.java:118 | trailing empty fields are dropped: such fields followed by any number of empty ones split back into the fields alone |
| `JavaString.SplitAtLeast` | src/main/java/org/apache/beam/gcp/JoinFile.java:118 | split gives at least k >= 2 fields iff the string has at least k pieces and a non-empty piece from the k-th on |
| `JavaString.StripKeepsPrefix` | src/main/java/org/apache/beam/gcp/JoinFile.java:118 | removing trailing empty fields from a longer list keeps any prefix that already ends in a non-empty field |
| `JavaString.SplitAppend` | src/main/java/org/apache/beam/gcp/JoinFile.java:118 | when a split ends in a non-empty field, appending "," + t keeps all its fields as a prefix |
| `DeviceData.Candidates` | src/main/java/org/apache/beam/gcp/JoinFile.java:143-146 | the pairs (valueOf(i), device) for i = 1..300, the specification `ExpandDevice` is proved against; `CandidatesShape` states their count, keys and values |
| `DeviceData.ExpandDevice` | src/main/java/org/apache/beam/gcp/JoinFile.java:137-149 | the loop over i = 1..MAX_LINES emits exactly the candidate pairs of the device |
| `DeviceData.CandidatesShape` | src/main/java/org/apache/beam/gcp/JoinFile.java:143-146 | one device gives exactly 300 pairs, with keys "1".."300" in ascending order, the device name unchanged, and pairwise distinct keys |
| `DeviceData.ExpandAllLength` | src/main/java/org/apache/beam/gcp/JoinFile.java:90-91 | d devices give d * 300 candidates |
| `DeviceData.ExpandAll` | src/main/java/org/apache/beam/gcp/JoinFile.java:90-91 | the device stage over all devices, their candidates one device after another; `ExpandAllLength` and `ExpandAllAt` state its length and each position |
| `DeviceData.ExpandAllAt` | src/main/java/org/apache/beam/gcp/JoinFile.java:143-146 | candidate d * 300 + j has key j + 1 and device number d |
| `ContactData.Assigned` | src/main/java/org/apache/beam/gcp/JoinFile.java:162-163 | the pairs (valueOf(start + i), line i) that the contact stage emits when its counter starts at start; `AssignedKeys` states the keys from 1 |
| `ContactData.AssignSequence` | src/main/java/org/apache/beam/gcp/JoinFile.java:152-165 | the contact stage's outcome: failure with index 301 once the counter would pass 300 (or at the counter itself if it is already past 301), else the pairs `Assigned(lines, start)`; `RunContactStage` proves the array-writing stage equal to it |
| `ContactData.ContactSequencer.constructor` | src/main/java/org/apache/beam/gcp/JoinFile.java:64-76 | the counter starts at 1 and all 301 slots of contact_list start null |
| `ContactData.ContactSequencer.ProcessElement` | src/main/java/org/apache/beam/gcp/JoinFile.java:155-163 | while the counter is at most 300: stores the line at contact_list[counter], leaves every other slot unchanged, emits (valueOf(counter), line) and adds exactly 1 to the counter; past 300 it throws ArrayIndexOutOfBounds(counter) and changes nothing |
| `ContactData.RunContactStage` | src/main/java/org/apache/beam/gcp/JoinFile.java:152-165 | running the lines in order from any valid state emits the keys counter, counter+1, ... with the lines, and the new state has the lines appended; once the array is full, the stage fails with index 301 |
| `ContactData.FreshContactStage` | src/main/java/org/apache/beam/gcp/JoinFile.java:152-165 | from the initial state, k <= 300 lines leave line i in slot i, slot 0 and slots past k null, and the counter at k + 1; a 301st line fails with index 301 |
| `ContactData.AssignedKeys` | src/main/java/org/apache/beam/gcp/JoinFile.java:162-163 | numbering k lines from 1 emits exactly the keys "1".."k" in order, each with its own line, and the keys are pairwise distinct |
| `ContactData.ContactView` | src/main/java/org/apache/beam/gcp/JoinFile.java:86-88 | the side-input map has exactly the emitted keys, and with distinct keys each maps to its own line |
| `ContactData.ContactViewOfAssigned` | src/main/java/org/apache/beam/gcp/JoinFile.java:86-88 | the map built from k numbered lines holds "n" iff 1 <= n <= k, and "n" maps to line n |
| `ContactData.ContactViewKeys` | src/main/java/org/apache/beam/gcp/JoinFile.java:86-88 | every key of that map is the decimal form of some n in 1..k |
| `Join.RowKey` | src/main/java/org/apache/beam/gcp/JoinFile.java:106 | device + "_" + key has length |device| + 1 + |key|, holds the device before the underscore and the key after it |
| `Join.JoinOne` | src/main/java/org/apache/beam/gcp/JoinFile.java:100-106 | one candidate (seq, device) gives one record with row key device_seq and value contactMap.get(seq), null when absent; `Pipeline.JoinedAt` and `Pipeline.DeviceHitAt` state it on the pipeline's map |
| `Join.JoinAll` | src/main/java/org/apache/beam/gcp/JoinFile.java:95-108 | the Process stage gives exactly one joined record per input pair, so the output count equals the input count; `Pipeline.JoinedHits` counts the non-null ones |
| `Join.RowKeyInjective` | src/main/java/org/apache/beam/gcp/JoinFile.java:106 | device and key can be recovered from device + "_" + key when the key has no underscore |
| `Formatting.FormatRecord` | src/main/java/org/apache/beam/gcp/JoinFile.java:115-130 | one Format call: a null value throws NullPointer, fewer than four fields throw at the first missing index, otherwise four Puts; `FormatRecordOutcome` states when it succeeds and what it emits |
| `Formatting.FormatRecordOutcome` | src/main/java/org/apache/beam/gcp/JoinFile.java:118-129 | formatting succeeds iff the value is non-null with at least four pieces and a non-empty one from the fourth on; then it emits 4 Puts on the row key in family contacts, with columns lastname, firstname, contact and nickname holding fields 0..3; null fails with NullPointer, and too few fields fail at index = field count |
| `Formatting.FormatFields` | src/main/java/org/apache/beam/gcp/JoinFile.java:118-129 | four comma-free fields, the last non-empty, are written back as exactly those four values, in column order |
| `Formatting.FormatIgnoresExtraFields` | src/main/java/org/apache/beam/gcp/JoinFile.java:118-124 | once a string formats, appending more fields leaves its four mutations unchanged |
| `Formatting.FormatTrailingComma` | src/main/java/org/apache/beam/gcp/JoinFile.java:118-124 | "a,b,c," has only three fields and fails at index 3 with no mutation |
| `Formatting.FormatAll` | src/main/java/org/apache/beam/gcp/JoinFile.java:112-131 | the stage succeeds iff every record formats; its output is then 4 mutations per record, in record order; a failure is the exception of some failing record |
| `Pipeline.Joined` | src/main/java/org/apache/beam/gcp/JoinFile.java:86-108 | the joined records: all device candidates probed against the map built from the numbered contacts; `JoinedAt`, `JoinedAtIndex` and `JoinedHits` state their layout and hits; the program reaches the join only with at most 300 contact lines (`JoinReached`), and otherwise fails first (`JoinContactsOverflow`) |
| `Pipeline.JoinReached` | src/main/java/org/apache/beam/gcp/JoinFile.java:86-131 | with at most 300 contact lines the job's outcome is the Format stage over the joined records |
| `Pipeline.JoinContacts` | src/main/java/org/apache/beam/gcp/JoinFile.java:78-135 | the whole of joinContacts: the contact stage's failure, or the Format stage over the joined records; `JoinContactsOutcome` states when it succeeds and `JoinContactsFullAt` what it writes |
| `Pipeline.JoinedAt` | src/main/java/org/apache/beam/gcp/JoinFile.java:94-108 | d devices give d * 300 joined records; record d * 300 + j has row key device_(j+1) and holds contact line j + 1, or null when there are at most j lines |
| `Pipeline.JoinedAtIndex` | src/main/java/org/apache/beam/gcp/JoinFile.java:94-108 | joined record i comes from device i / 300 and key i % 300 + 1 |
| `Pipeline.DeviceHitAt` | src/main/java/org/apache/beam/gcp/JoinFile.java:100-106 | the join record for key j + 1 of one device carries a contact exactly when there are more than j contact lines |
| `Pipeline.DeviceHits` | src/main/java/org/apache/beam/gcp/JoinFile.java:100-106 | with k <= 300 contact lines, one device finds a contact for exactly k of its keys |
| `Pipeline.JoinedHits` | src/main/java/org/apache/beam/gcp/JoinFile.java:100-106 | join completeness: d devices and k <= 300 contact lines give exactly d * k joined records with a non-null contact |
| `Pipeline.JoinedRowKeysDistinct` | src/main/java/org/apache/beam/gcp/JoinFile.java:106 | with distinct device names, no two joined records share a row key |
| `Pipeline.JoinContactsFull` | src/main/java/org/apache/beam/gcp/JoinFile.java:78-135 | exactly 300 contact lines that all split into at least four fields make the job succeed, with 4 * d * 300 mutations |
| `Pipeline.JoinContactsFullAt` | src/main/java/org/apache/beam/gcp/JoinFile.java:112-131 | in that case mutation 4 * (d * 300 + j) + c is the Put of field c of contact line j + 1 in column c on row device_(j+1) |
| `Pipeline.JoinContactsShort` | src/main/java/org/apache/beam/gcp/JoinFile.java:100-118 | with a device and fewer than 300 contact lines the job fails; with well-formed contacts the failure is a NullPointerException from a join miss |
| `Pipeline.JoinContactsOutcome` | src/main/java/org/apache/beam/gcp/JoinFile.java:78-135 | with at least one device, the job succeeds iff there are exactly 300 contact lines and every one splits into at least four fields |
| `Pipeline.JoinContactsNoDevices` | src/main/java/org/apache/beam/gcp/JoinFile.java:90-131 | with no devices and at most 300 contact lines the job succeeds with no mutations |
| `Pipeline.JoinContactsOverflow` | src/main/java/org/apache/beam/gcp/JoinFile.java:157 | more than 300 contact lines fail the job with index 301 |
| `Pipeline.FormatExample` | src/main/java/org/apache/beam/gcp/JoinFile.java:118-129 | "Doe,Jane,555-1234,Janey" gives four Puts with values Doe, Jane, 555-1234 and Janey on row device_1 in family contacts |
| `Pipeline.MalformedExample` | src/main/java/org/apache/beam/gcp/JoinFile.java:118-124 | "Doe,Jane,555-1234," fails at index 3 |
| `Pipeline.TwoContactJoined` | src/main/java/org/apache/beam/gcp/JoinFile.java:94-108 | one device with two contacts: records device_1 and device_2 carry the contacts, and device_3 carries null |
| `Pipeline.TwoContactJobFails` | src/main/java/org/apache/beam/gcp/JoinFile.java:104-118 | one device with two well-formed contacts fails the job with a NullPointerException |

## Left out

- `main`, the `Options` interface and its validation, and the `System.getProperty` lookups (lines 168-204) are process start-up and configuration.
- `TextIO.read` of the storage globs and `CloudBigtableIO.writeToTable` are I/O and an external store. Input lines are parameters, and the output is the list of mutations.
- `Formatting.FormatRecord`: a Put is a plain record; HBase's row-key checks in `new Put` (a key of length 0 or over 32767 bytes throws `IllegalArgumentException`) are not modelled, so a very long device line counts as a success here.
- `Pipeline.JoinContacts`: when the job fails, Puts from earlier records or bundles may already have reached the Bigtable sink; the model's `Failure` carries only the exception and does not represent that partial write.
- Byte encoding is not modelled. `Bytes.toBytes` is UTF-8 and `String.getBytes()` uses the platform charset; row keys and values are kept as strings.
- Beam machinery is not modelled: `ParDo` scheduling, bundles, retries, and coders. A coder might reject the null value of a join miss before `Format` runs; the model lets it reach `split`, and the job fails either way.
- `ContactData.ContactView`: `View.asMap` rejects duplicate keys at run time. The model lets a later pair replace an earlier one. Keys from the sequential stage are distinct (`ContactData.AssignedKeys`), so this case does not arise.
- Parallel or retried execution of `CreateContactDataFn` is not modelled; the shared static counter would then race. The stage runs strictly in sequence (`ContactData.RunContactStage`).
- The `System.out.println` diagnostic at line 160 fires only for a null line. Input lines are never null, so this logging branch is not modelled.
- Parallel output order is not modelled. Collections are sequences in input order, which Beam does not promise; the properties that count and place records hold for that order.
- The unused `TupleTag`s and the `CoGroupByKey` imports have no behaviour.
