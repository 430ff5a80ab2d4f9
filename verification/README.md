# A verified model of the Berkeley DB index layer and its speed benchmark

This project models three parts of a contest entry: an index library that implements the contest's index interface on Berkeley DB, the multi-threaded benchmark that drives it, and the Python script that runs the benchmark twice and collects its counts.

- **`bdbimpl.c`, the index layer.** The model covers:
  - the order-preserving key encoding and its decoding;
  - the catalogue of created indices and the per-thread index handles;
  - transactions with their chains of open cursors;
  - the four record operations (`get`, `getNext`, `insertRecord`, `deleteRecord`), run over an abstract sorted store of (key, data) pairs.

  Every Berkeley DB call that can fail takes its outcome as a parameter: no fault, a deadlock, or another error.
- **`tests/speed_test.c`, the benchmark.** All random data is drawn once, after `srand(seed)`, into per-thread arrays, and `myrand` reads a thread's own array. Keys, payloads, the kind of each test and the number of calls a test makes are all functions of those numbers. The threads and the index interface are replaced by the answers each call gets, so the counts a run adds are stated as sums over those answers. `main` reads its arguments with `atoi` and writes the four totals as text.
- **`harness.py`.** `parse_scores` reads a results file into a table, including the way a malformed line makes it fail. `run_test` is a control skeleton whose shell commands are opaque steps.

The proved properties fall into five groups:

- **Key encoding.** Decoding inverts encoding, and the encoded byte order of SHORT and INT keys is their numeric order.
- **Store operations.** Each operation finds or changes what Berkeley DB's cursor flags promise (`DB_SET`, `DB_SET_RANGE`, `DB_NEXT`, `DB_GET_BOTH`, `put`, `del`) and keeps the store sorted.
- **Record operations.** Every result code and every change to the cursor chain is stated case by case.
- **Benchmark.** Each test stops at the first call it does not accept. Every test is counted at least once, and at most one transaction completes per test.
- **Pipeline.** The results text that `main` writes parses back to exactly its four counts, and `atoi` on the next command line recovers them.

Files:

| file | module | contents |
|---|---|---|
| `wrappers.dfy` | `Wrappers` | `Option` |
| `seqs.dfy` | `Seqs` | the first-match walk along a list |
| `bytes.dfy` | `Bytes` | bytes, big-endian images and the bytewise key order |
| `api.dfy` | `Api` | error codes, key types, keys, records and C-string helpers |
| `key_codec.dfy` | `KeyCodec` | `p_setKeyDataFromKey` and `getNext`'s decoding |
| `store.dfy` | `Store` | the sorted duplicate-sorted B-tree and cursor positioning |
| `catalogue.dfy` | `Catalogue` | `create`, `openIndex`, `closeIndex`, `p_createEnv` |
| `access.dfy` | `Access` | transactions, `p_prepTxnCursor` and the record operations |
| `text.dfy` | `Text` | decimal numerals, `%i` and `atoi` |
| `pytext.dfy` | `PyText` | Python's `readlines`, `split`, `strip`, `float` and `repr` |
| `harness.dfy` | `Harness` | `parse_scores` and `run_test` |
| `speed_test.dfy` | `SpeedTest` | the benchmark driver |
| `pipeline.dfy` | `Pipeline` | properties that span the C and the Python halves |

## Model

| member | source | states |
|---|---|---|
| Bytes.BigEndian | bdbimpl.c:129-134 | the n-byte image of a word has exactly n bytes |
| Bytes.FromBigEndian | bdbimpl.c:766-772 | the word assembled from n big-endian bytes is below 256^n |
| Bytes.LemmaBigEndianMod | bdbimpl.c:144-153 | the n-byte image depends only on the word modulo 256^n, which is the truncation of the masks |
| Bytes.LemmaFromBigEndian | bdbimpl.c:778-788 | assembling the image of u gives back u modulo 256^n |
| Bytes.LemmaBigEndianFrom | bdbimpl.c:778-788 | the image of an assembled word is the original byte string |
| Bytes.LemmaBigEndianOrder | bdbimpl.c:140-157 | for words of the same width, x < y implies the image of x sorts bytewise before the image of y |
| Bytes.LemmaByteLessIrreflexive | bdbimpl.c:271 | the bytewise key order that the sorted database uses is irreflexive |
| Bytes.LemmaByteLessTransitive | bdbimpl.c:271 | the bytewise key order is transitive |
| Bytes.LemmaByteLessTotal | bdbimpl.c:271 | any two distinct byte strings are ordered one way or the other |
| Bytes.LemmaByteLessAsymmetric | bdbimpl.c:271 | the bytewise key order is asymmetric |
| Bytes.Signed | bdbimpl.c:776 | the signed reading of an n-byte bit pattern lies in the signed range |
| Bytes.LemmaSignedBits | bdbimpl.c:776 | the signed reading of a bit pattern has that bit pattern modulo 256^n |
| Bytes.LittleEndian | bdbimpl.c:130 | the in-memory image of a word, least significant byte first, has exactly n bytes |
| Bytes.FromLittleEndian | bdbimpl.c:145 | the word that n little-endian bytes hold is below 256^n |
| Bytes.LemmaSignedMod | bdbimpl.c:792 | reading back the bit pattern of an in-range signed value gives the value |
| Bytes.LemmaFromLittleEndian | bdbimpl.c:776 | reading the little-endian image of u gives back u modulo 256^n |
| Bytes.LemmaLittleEndianPrefix | bdbimpl.c:129-130 | the low k bytes of a little-endian word hold the word modulo 256^k |
| Seqs.FirstWhere | bdbimpl.c:588-598 | the walk stops at the first element that matches, or at the end when none does |
| Api.Zeros | bdbimpl.c:79 | the zero-filled buffer has the requested length and only zero bytes |
| Api.StrLen | bdbimpl.c:162 | strlen: no NUL before the length, and a NUL at the length when it is inside the buffer |
| Api.CString | bdbimpl.c:836 | the string part of a buffer is a prefix of it, is StrLen long and contains no NUL |
| Api.LemmaShortKeyBits | bdbimpl.c:130 | `keyval.shortkey` is the int32 whose bit pattern is the first four bytes of the union |
| Api.LemmaIntKeyBits | bdbimpl.c:145 | `keyval.intkey` is the int64 whose bit pattern is the first eight bytes of the union |
| Api.LemmaWithShortKey | bdbimpl.c:776 | assigning `shortkey` makes it read back the value and keeps the kind and every union byte from the fifth on |
| Api.LemmaWithIntKey | bdbimpl.c:792 | assigning `intkey` makes it read back the value and keeps the kind and every union byte from the ninth on |
| Api.LemmaShortIsLowWord | bdbimpl.c:647 | a key's `shortkey` is always the low 32 bits of its `intkey`, so a key written as INT and retagged as SHORT is probed with its low word |
| Api.ZeroKey | bdbimpl.c:761 | the memset key is SHORT with an all-zero union, whose `shortkey` and `intkey` read 0 |
| Api.StoredPayload | bdbimpl.c:836-838 | the stored data is the payload's string plus its terminating NUL |
| KeyCodec.FlipTopBit | bdbimpl.c:135 | toggling the sign bit of the top byte adds 128 modulo 256 |
| KeyCodec.EncodeSigned | bdbimpl.c:129-135 | the encoding of a signed word has the word's width in bytes |
| KeyCodec.DecodeSigned | bdbimpl.c:766-776 | the decoded word lies in the signed range of its width |
| KeyCodec.Window | bdbimpl.c:764 | the first n bytes of the returned key data, zero-padded when shorter |
| KeyCodec.EncodeKey | bdbimpl.c:122-169 | there is no encoding exactly for an unknown type; SHORT gives 4 bytes, INT gives 8, and VARCHAR gives the strlen bytes of the string, none of them NUL |
| KeyCodec.DecodeKey | bdbimpl.c:760-793 | decoding yields a key of the index's type, or the zero key for an unknown type; a SHORT or INT value is written through its view into the zeroed union, so the bytes above it stay zero |
| KeyCodec.LemmaSignedRoundTrip | bdbimpl.c:766-792 | decoding the encoding of any in-range signed word gives it back |
| KeyCodec.LemmaSignedOrder | bdbimpl.c:127-135 | a < b exactly when the encoding of a sorts bytewise before that of b |
| KeyCodec.LemmaKeyRoundTrip | bdbimpl.c:122-169 | decoding the encoded key restores its type and value; a VARCHAR key comes back truncated to MAX_VARCHAR_LEN characters |
| KeyCodec.LemmaShortRoundTrip | bdbimpl.c:765-776 | a SHORT key survives the encode-decode round trip |
| KeyCodec.LemmaIntRoundTrip | bdbimpl.c:777-792 | an INT key survives the encode-decode round trip |
| KeyCodec.LemmaVarcharRoundTrip | bdbimpl.c:762-764 | a VARCHAR key comes back as its string cut to MAX_VARCHAR_LEN characters |
| KeyCodec.LemmaStrLenTerminated | bdbimpl.c:764 | NUL-free bytes copied into a zeroed buffer read back as the same C string |
| KeyCodec.LemmaKeyOrder | bdbimpl.c:122-157 | for SHORT and INT keys, the numeric order is exactly the bytewise order of the encodings |
| KeyCodec.LemmaKeyInjective | bdbimpl.c:122-157 | two SHORT or INT keys have the same encoding exactly when they are equal |
| Store.LemmaEntryLessIrreflexive | bdbimpl.c:271 | the (key, data) order that DB_DUPSORT keeps is irreflexive |
| Store.LemmaEntryLessTransitive | bdbimpl.c:271 | the (key, data) order is transitive |
| Store.LemmaEntryLessAsymmetric | bdbimpl.c:271 | the (key, data) order is asymmetric |
| Store.LemmaEntryLessTotal | bdbimpl.c:271 | any two distinct pairs are ordered one way or the other |
| Store.LemmaKeyOrderOfEntries | bdbimpl.c:271 | a pair before another never has a larger key |
| Store.SeekKey | bdbimpl.c:662-664 | every pair before the position has a smaller key, and the pair at the position does not |
| Store.SeekAfter | bdbimpl.c:742-744 | no pair before the position is above the cursor's pair, and the pair at the position is |
| Store.SeekNext | bdbimpl.c:742-744 | the position DB_NEXT steps to is inside the store or at its end |
| Store.LemmaSeekKey | bdbimpl.c:662-664 | in a sorted store, no pair from the position on has a smaller key, and the key is stored exactly when the pair at the position has it |
| Store.LemmaSeekAfter | bdbimpl.c:742-744 | in a sorted store, every pair from the position on is above the cursor's pair, and the pair at the position is the least of them |
| Store.FindKey | bdbimpl.c:662-664 | DB_SET returns a stored pair under the key |
| Store.FindRange | bdbimpl.c:727-729 | DB_SET_RANGE returns a stored pair whose key is not below the probe |
| Store.FindNext | bdbimpl.c:742-744 | DB_NEXT returns a stored pair above the cursor's pair |
| Store.LemmaFindKey | bdbimpl.c:662-664 | DB_SET finds a pair exactly when the key is stored, and the pair it finds is the least under that key |
| Store.LemmaFindRange | bdbimpl.c:727-729 | DB_SET_RANGE finds nothing exactly when every key is below the probe; otherwise it finds the least pair not below the probe, whose key is above the probe when the probe itself is not stored |
| Store.LemmaFindNextWalk | bdbimpl.c:741-755 | from no position DB_NEXT finds the first pair, and from pair i it finds pair i + 1 or reaches the end |
| Store.Insert | bdbimpl.c:841 | DB->put keeps the store sorted, adds exactly the new pair, and grows the store by one when the pair is new; a stored pair never reaches it, since insertRecord refuses it with ENTRY_EXISTS as unittests.c:492-502 expects |
| Store.RemoveKey | bdbimpl.c:881 | DB->del keeps the store sorted and removes exactly the pairs under the key; the store shrinks exactly when the key was stored |
| Store.RemoveEntry | bdbimpl.c:922-924 | the cursor delete keeps the store sorted and removes exactly that pair |
| Catalogue.Database.constructor | bdbimpl.c:260-271 | db_create gives an empty, unopened handle |
| Catalogue.IndexState.constructor | bdbimpl.c:355-360 | the zeroed state takes the handle, type and name and starts with no transaction id, a zero last key and no miss |
| Catalogue.IndexOfName | bdbimpl.c:226-238 | the lookup stops at the first link with the name, or at the end when no link has it (the FirstWhere walk) |
| Catalogue.LemmaIndexOfName | bdbimpl.c:316-329 | the lookup finds the name exactly when some link has it |
| Catalogue.Environment.constructor | bdbimpl.c:70-115 | the library starts with no environment, no error log and an empty catalogue |
| Catalogue.Environment.CreateEnv | bdbimpl.c:171-214 | p_createEnv succeeds exactly when every step does; the handle stays set once db_env_create succeeded, even if a later step failed |
| Catalogue.Environment.Find | bdbimpl.c:226-238 | the lookup loop stops at IndexOfName |
| Catalogue.Environment.Create | bdbimpl.c:216-304 | a known name gives DB_EXISTS and changes nothing; otherwise the log, the environment and db_create are tried in that order, the first failure is returned, and on success exactly one link is appended with the new type, the name, an empty database and no opener; the catalogue stays consistent |
| Catalogue.Environment.Append | bdbimpl.c:276-295 | the new link goes at the end of the catalogue with a fresh, empty database and an open count of zero |
| Catalogue.Environment.OpenIndex | bdbimpl.c:306-366 | an unknown name gives DB_DNE; otherwise the open count is raised and the first opener opens the database; a failed open returns FAILURE and keeps the raised count; on success a fresh state refers to that link's database, type and name, with tid 0, a zero lastKey and the miss flag clear; no other database and no stored pair changes |
| Catalogue.Environment.CloseIndex | bdbimpl.c:368-401 | a known name only drops the state's handle and returns SUCCESS; an unknown name returns DB_DNE and changes nothing |
| Catalogue.LemmaAppendLink | bdbimpl.c:276-295 | appending a link with a new name and a new handle keeps names and handles distinct |
| Catalogue.LemmaBumpLink | bdbimpl.c:332 | raising one open count keeps the catalogue consistent |
| Access.FaultCode | bdbimpl.c:451-456 | a Berkeley DB fault maps to DEADLOCK exactly for DB_LOCK_DEADLOCK and to FAILURE otherwise |
| Access.EndCode | bdbimpl.c:555-564 | ending a transaction succeeds exactly when the call had no fault |
| Access.BeginFault | bdbimpl.c:432-464 | beginning a transaction goes through exactly when an environment exists or can be set up and txn_begin has no fault |
| Access.Txn.constructor | bdbimpl.c:459-461 | a new transaction has the given id and no cursors |
| Access.CursorIndex | bdbimpl.c:588-598 | the cursor walk stops at the first cursor on the index's database, or at the end of the chain (the FirstWhere walk) |
| Access.Prepared | bdbimpl.c:601-618 | after preparation the chain holds a cursor for the database at CursorIndex |
| Access.LemmaPreparedValid | bdbimpl.c:601-618 | adding a cursor keeps at most one cursor per database in the chain |
| Access.Blanked | bdbimpl.c:650 | the payload buffer is zeroed except for its last byte |
| Access.CopyOut | bdbimpl.c:676 | the stored data is copied into the payload buffer, up to MAX_PAYLOAD_LEN bytes |
| Access.LemmaPayloadRoundTrip | bdbimpl.c:676 | a payload stored by insertRecord reads back as the same C string when it fits the buffer |
| Access.BeginTransaction | bdbimpl.c:432-464 | success yields a fresh transaction with the given id and an empty chain, and a failure yields its code and no transaction; the environment is set up when it was missing |
| Access.ClosedBefore | bdbimpl.c:483-501 | the drain loop closes cursors up to the first c_close that fails |
| Access.DrainCursors | bdbimpl.c:483-501 | a failing c_close returns its code and leaves the unclosed tail of the chain; otherwise the chain is emptied |
| Access.CommitTransaction | bdbimpl.c:517-565 | no transaction gives TXN_DNE and no environment gives FAILURE, with the chain unchanged; otherwise the cursors are drained, then the commit's result is returned |
| Access.AbortTransaction | bdbimpl.c:466-514 | the same cases as commit, ending with the abort's result |
| Access.FindCursor | bdbimpl.c:588-598 | the walk returns CursorIndex |
| Access.PrepTxnCursor | bdbimpl.c:574-624 | with a caller's transaction, its cursor for the database is found or opened; without one, a transaction is begun; on success the chain is Prepared, the index is CursorIndex and the state records the transaction id; a new cursor clears the miss flag; every failure returns its code |
| Access.FinishOwn | bdbimpl.c:801-809 | a transaction opened for the call is committed after success and aborted otherwise; the call's own failure code is kept |
| Access.Get | bdbimpl.c:628-694 | the probe is always remembered with the caller's type; the key is retagged with the index's type and so read through that type's view of the same union bytes; each case is stated: an unknown key type, a failed preparation, a deadlock, a miss (which sets the miss flag), and a hit, which copies the least pair under the key and moves the cursor onto it |
| Access.LemmaNextStepCodes | bdbimpl.c:719-797 | getNext succeeds exactly when it lands on a pair, and then returns that pair's decoded key and payload; KEY_NOTFOUND comes only from a pending miss with an unknown type; DEADLOCK comes only from a deadlock; every other outcome blanks the payload |
| Access.LemmaNextStepSeek | bdbimpl.c:719-739 | after a miss, getNext ends exactly when every stored key is below the probe, and otherwise lands on the least pair not below it, as unittests.c:823-857 expects of getNext after a get of a deleted key |
| Access.LemmaNextStepWalk | bdbimpl.c:741-755 | without a pending miss, getNext lands on the first pair from no position, and on the pair after the cursor's otherwise, or reaches the end with DB_END as unittests.c:523-534 expects |
| Access.LemmaNextStepKey | bdbimpl.c:760-793 | the key getNext returns is the SHORT or INT key that was stored |
| Access.GetNext | bdbimpl.c:697-812 | a failed preparation returns its code and leaves the record alone; otherwise the result, the record and the cursor move are those of NextStep, and the miss flag is cleared; without a caller's transaction it never returns KEY_NOTFOUND, so the call's own transaction is always finished |
| Access.Advance | bdbimpl.c:719-797 | the cursor step returns NextStep's code and record, and the cursor lands where NextStep lands |
| Access.InsertRecord | bdbimpl.c:815-853 | an unknown key type gives FAILURE; a fault gives its code; an existing pair gives ENTRY_EXISTS; otherwise the pair is inserted; every outcome keeps the store sorted |
| Access.DeleteKey | bdbimpl.c:879-891 | a fault gives its code; a missing key gives KEY_NOTFOUND; otherwise every pair under the key is removed |
| Access.DeleteRecord | bdbimpl.c:857-952 | an unknown key type gives KEY_NOTFOUND; a zero payload deletes by key; otherwise the cursor is positioned on the exact pair, and the result is a preparation failure, a deadlock, ENTRY_DNE, a failed delete, or the removal of exactly that pair; unittests.c:618-646 exercises the delete by key and unittests.c:536-564 and 660-694 the delete of one pair |
| Text.DigitChar | tests/speed_test.c:650-653 | the character printed for a digit is a digit |
| Text.DigitValue | tests/speed_test.c:630-636 | a digit's value is below ten |
| Text.Digits | tests/speed_test.c:650-653 | the numeral printed by %i is digits only, with no leading zero |
| Text.Decimal | tests/speed_test.c:650-653 | %i writes a minus sign before the digits of a negative number |
| Text.LeadingDigits | tests/speed_test.c:630-636 | atoi's digit run is a prefix of digits that stops at the first non-digit |
| Text.SkipSpace | tests/speed_test.c:630-636 | atoi skips leading white space and stops at the first non-space |
| Text.LemmaDigitsValue | tests/speed_test.c:650-653 | the value of a printed numeral is the number printed |
| Text.LemmaLeadingDigits | tests/speed_test.c:630-636 | atoi's digit run of digits followed by a non-digit is those digits |
| Text.LemmaAtoiDecimal | tests/speed_test.c:630-636 | atoi reads back any number %i wrote, followed by a non-digit or the end |
| Text.LemmaAtoiDigits | tests/speed_test.c:630-636 | atoi reads back a non-negative numeral |
| Text.LemmaAtoiNegative | tests/speed_test.c:630-636 | atoi reads back a negative numeral |
| Text.LemmaAtoiUnsigned | tests/speed_test.c:630-636 | atoi of digits followed by a non-digit is their value |
| Text.LemmaAtoiMinus | tests/speed_test.c:630-636 | atoi of a minus sign and digits is minus their value |
| PyText.Repr | harness.py:57 | repr of a number starts with a digit or a minus sign |
| PyText.IndexOf | harness.py:24 | the first occurrence of a character, or the length when it does not occur |
| PyText.Lines | harness.py:21 | readlines gives non-empty lines, and each line but the last ends in a newline |
| PyText.Split | harness.py:24 | str.split gives at least one part, and no part contains the separator |
| PyText.StripLeft | harness.py:25 | lstrip never lengthens the string |
| PyText.StripRight | harness.py:25 | rstrip never lengthens the string |
| PyText.Strip | harness.py:25 | strip leaves no white space at either end |
| PyText.LemmaStripLeft | harness.py:25 | lstrip removes exactly a leading run of white space |
| PyText.LemmaStripRight | harness.py:25 | rstrip removes exactly a trailing run of white space |
| PyText.LemmaSplitCount | harness.py:24 | split gives one more part than there are separators |
| PyText.LemmaSplitTwo | harness.py:24 | splitting two separator-free strings joined by the separator gives them back |
| PyText.LemmaIndexOfPrefix | harness.py:24 | the first separator is found right after a separator-free prefix |
| PyText.LemmaStripUnchanged | harness.py:25 | a string without white space at either end is its own strip |
| PyText.LemmaStripLeftSpaces | harness.py:25 | lstrip removes exactly the white-space padding before a string |
| PyText.LemmaStripRightSpaces | harness.py:25 | rstrip removes exactly the white-space padding after a string |
| PyText.LemmaStripPadded | harness.py:25 | strip of a padded string gives the string |
| PyText.LemmaUnsignedIntegral | harness.py:25 | float() reads digits, optionally followed by ".0", as their value |
| PyText.LemmaParseFloatDecimal | harness.py:25 | float() reads back a %i numeral padded with white space |
| PyText.LemmaParseSigned | harness.py:25 | float() reads a signed numeral, optionally followed by ".0" |
| PyText.LemmaParseFloatRepr | harness.py:25 | float() reads back repr of an integral float, the form line 57 writes |
| PyText.LemmaAtoiRepr | harness.py:57 | atoi of repr of an int or an integral float is its value |
| Harness.LemmaParseLineColons | harness.py:24 | a line without exactly one colon does not unpack into a field and a value |
| Harness.LemmaApply | harness.py:24-25 | a parsed line sets its own field to its value and leaves every other field as it was |
| Harness.ParseScores | harness.py:16-31 | the loop over the lines computes the same table as reading the lines one by one; a file that cannot be opened gives an empty table |
| Harness.LemmaErrorSticks | harness.py:21-30 | once a line has made the handler fail, the whole read fails |
| Harness.LemmaReadLinesFails | harness.py:21-30 | reading fails exactly when some line is malformed |
| Harness.LemmaTableKeys | harness.py:24-25 | after a successful read, a field is in the table exactly when some line names it |
| Harness.LemmaLaterLineWins | harness.py:24-25 | a field takes the value of the last line that names it |
| Harness.LemmaBlankLineFails | harness.py:22-24 | a line holding only a newline is not skipped and makes the read fail |
| Harness.LemmaWellFormedLine | harness.py:24-25 | "field: value" parses to the stripped field and the value |
| Harness.InitialTable | harness.py:46-50 | the table starts with the four counters, each at zero |
| Harness.CommandLine | harness.py:57 | the command line exists exactly when the four fields are in the table, and it has eight words with the program, the seed, and the sizes 30 and 50 |
| Harness.LemmaUnitLine | harness.py:70-74 | the appended line says passed exactly when the unit tests' status is zero |
| Harness.RunFrom | harness.py:52-74 | the remaining iterations only add steps, at most one command per iteration plus two |
| Harness.LemmaRunFromShape | harness.py:52-74 | the added steps start with the benchmark runs; the run completes exactly when all runs took place and the unit tests ran, ending with the verdict line |
| Harness.LemmaFirstCommand | harness.py:46-57 | the first run gets zero counters and the sizes 30 and 50 |
| Harness.LemmaFirstStep | harness.py:52-57 | the first step invokes the benchmark with the first seed and zero counters |
| Harness.RunTest | harness.py:39-76 | a missing program does nothing; otherwise a completed run is two benchmark runs, the unit tests, and the verdict line, in that order |
| SpeedTest.Letter | tests/speed_test.c:89-94 | p_randStr's alphabet maps 0-25 to a-z and 26-51 to A-Z |
| SpeedTest.StrNCopy | tests/speed_test.c:237 | strncpy fills a buffer of exactly the given size |
| SpeedTest.LemmaStrNCopy | tests/speed_test.c:237 | a string shorter than the buffer is copied whole, terminator included (also for the payload copy at line 211) |
| SpeedTest.TypeOfTag | tests/speed_test.c:133-134 | rand() % 3 selects SHORT, INT and VARCHAR one-to-one |
| SpeedTest.KindOf | tests/speed_test.c:521-566 | remainder 0 selects a scan, 1-3 a get, and 4-9 an update |
| SpeedTest.Planned | tests/speed_test.c:320-504 | a test plans between 1 and 200 calls |
| SpeedTest.ScanLength | tests/speed_test.c:320-378 | a scan does between 100 and 199 getNext calls |
| SpeedTest.GetCount | tests/speed_test.c:385-424 | a get test does between 20 and 29 gets |
| SpeedTest.UpdateRounds | tests/speed_test.c:431-504 | an update test does between 5 and 9 rounds |
| SpeedTest.LemmaAcceptedNext | tests/speed_test.c:320-504 | one more accepted call extends the accepted prefix |
| SpeedTest.LemmaUpdateRoundReplies | tests/speed_test.c:431-504 | an accepted insert and an accepted delete extend the accepted prefix by one round |
| SpeedTest.LemmaSettledAll | tests/speed_test.c:320-504 | when all planned calls are accepted, the test ends with SUCCESS after all of them |
| SpeedTest.LemmaSettledStop | tests/speed_test.c:320-504 | a test stops at the first call it does not accept, with that call's verdict |
| SpeedTest.LemmaAllAccepted | tests/speed_test.c:320-504 | the accepted prefix means every call before n was accepted |
| SpeedTest.LemmaSettledSuccess | tests/speed_test.c:320-504 | a test returns SUCCESS exactly when all its planned calls would be accepted |
| SpeedTest.LemmaSettledUnique | tests/speed_test.c:320-504 | the replies determine how many calls a test makes and what it returns |
| SpeedTest.LemmaUpdateDraws | tests/speed_test.c:431-504 | an update test draws at most 28 numbers |
| SpeedTest.LemmaParity | tests/speed_test.c:431-504 | even calls are inserts that tolerate ENTRY_EXISTS and odd calls are deletes that tolerate KEY_NOTFOUND; a round draws three numbers |
| SpeedTest.Tally | tests/speed_test.c:518-623 | one test counts at least one event and at most one completion, and completes exactly when the index opened, the transaction began, the test succeeded and the commit went through |
| SpeedTest.LemmaTotalBounds | tests/speed_test.c:518-623 | over a thread's tests, completions are at most the number of tests and all events at least that number |
| SpeedTest.OpenedCount | tests/speed_test.c:267-277 | no more indices open than inserts are attempted |
| SpeedTest.LemmaThreadsTotalBounds | tests/speed_test.c:707-716 | over all threads, completions are at most threads × tests and all events at least that |
| SpeedTest.Rng.constructor | tests/speed_test.c:117 | srand starts the generator's sequence at its beginning |
| SpeedTest.Rng.Rand | tests/speed_test.c:119 | rand() returns the next value of the sequence, within [0, RAND_MAX] |
| SpeedTest.Rng.RandStr | tests/speed_test.c:85-99 | p_randStr draws a length below size - 1, then one letter per character, and terminates the string |
| SpeedTest.Rng.DrawIndices | tests/speed_test.c:117-135 | after the discarded draw, the second draw of nIndices (the third rand()) sets the count in [1, 49], and one draw per index sets its type |
| SpeedTest.Rng.DrawData | tests/speed_test.c:137-194 | the shared arrays have one slot per populate insert of every thread; their strings fit their buffers; each thread gets numRandNums values |
| SpeedTest.Rng.FillTypes | tests/speed_test.c:129-135 | index i's type comes from the i-th draw of the loop |
| SpeedTest.Rng.FillArrays | tests/speed_test.c:187-194 | every thread's array has the requested length and holds rand() values |
| SpeedTest.Rng.FillRand | tests/speed_test.c:149-157 | the loop stores n successive rand() values |
| SpeedTest.Rng.FillStrings | tests/speed_test.c:160-169 | every string has the buffer size and is at most size - 2 characters long |
| SpeedTest.Benchmark.constructor | tests/speed_test.c:114-195 | initialize leaves every thread's counter at zero, sets the index count and types from the draws, and keeps main's totals and sizes |
| SpeedTest.Benchmark.MyRand | tests/speed_test.c:101-109 | myrand returns the next number of the thread's own array and moves only that thread's counter |
| SpeedTest.Benchmark.GenerateKey | tests/speed_test.c:217-239 | the key is KeyFrom of the thread's next number, and only that thread's counter moves, by one |
| SpeedTest.Benchmark.LemmaKeyFrom | tests/speed_test.c:224-237 | a generated key has the index's type and lies in the drawn ranges: SHORT in [1, MAX_SHORT_KEY - 1] from the slot's number, INT in [1, MAX_INT_KEY - 1] from the joined high and low words, VARCHAR the slot's string |
| SpeedTest.Benchmark.GeneratePayload | tests/speed_test.c:202-212 | the payload is the chosen slot's string copied into a zeroed buffer; one number is drawn |
| SpeedTest.Benchmark.CountFailedCall | tests/speed_test.c:357-373 | a deadlock is counted as one and returns DEADLOCK; anything else counts a failure and returns FAILURE |
| SpeedTest.Benchmark.Conclude | tests/speed_test.c:320-504 | a test ends settled, counting a deadlock or a failure only when it returns one |
| SpeedTest.Benchmark.ScanTest | tests/speed_test.c:320-378 | scan_test draws twice and makes a get and up to ScanLength getNext calls, stopping at the first call it does not accept |
| SpeedTest.Benchmark.GetTest | tests/speed_test.c:385-424 | get_test makes up to GetCount gets, drawing one key each, and stops at the first call it does not accept |
| SpeedTest.Benchmark.UpdateTest | tests/speed_test.c:431-504 | update_test makes up to UpdateRounds insert/delete rounds and stops at the first call it does not accept |
| SpeedTest.Benchmark.UpdateRound | tests/speed_test.c:447-482 | a round draws a key and a payload for the insert, and a key for the delete only when the insert was accepted |
| SpeedTest.Benchmark.RunKind | tests/speed_test.c:560-566 | the drawn kind of test runs, drawing at most TEST_DRAWS numbers, and ends settled |
| SpeedTest.Benchmark.TestOnce | tests/speed_test.c:518-623 | one pass draws the kind and the index, counts exactly Tally of the round, and runs the test only when the index opened and the transaction began |
| SpeedTest.Benchmark.EndTransaction | tests/speed_test.c:568-616 | commit or abort counts a completion, a deadlock or a failure as FinishCounts states |
| SpeedTest.Benchmark.TestThread | tests/speed_test.c:509-624 | a thread runs all its tests, moving only its own counter, and the totals grow by the Total of its tests |
| SpeedTest.Benchmark.Populate | tests/speed_test.c:259-313 | populate draws one number per insert and two more per opened index, counts every insert deadlock, and inserts only in-range keys into valid indices |
| SpeedTest.Benchmark.PopulateInsert | tests/speed_test.c:267-311 | one insert returns a record exactly when the index opened; the record goes into the drawn index; each deadlock is retried and counted |
| SpeedTest.Benchmark.PopulateAll | tests/speed_test.c:689-698 | every thread populates; the deadlock total grows by PopulateTotal |
| SpeedTest.Benchmark.TestAll | tests/speed_test.c:707-716 | every thread runs its tests; the three totals grow by ThreadsTotal |
| SpeedTest.Benchmark.Run | tests/speed_test.c:658-740 | run adds the populate and test counts to the totals and the elapsed milliseconds to globalTime |
| SpeedTest.SpeedTestMain | tests/speed_test.c:626-656 | main uses the arguments when there are at least eight words and the defaults otherwise, and writes the four final totals as "NAME: %i" lines |
| Pipeline.LemmaFieldNames | tests/speed_test.c:650-653 | the four field names are non-empty, contain no colon and no newline, and have no white space at either end |
| Pipeline.LemmaLinesCons | harness.py:21 | readlines splits off a complete first line |
| Pipeline.LemmaFourLines | tests/speed_test.c:650-653 | the four results lines read back as four lines |
| Pipeline.LemmaResultLineOne | tests/speed_test.c:650 | each results line is one complete line |
| Pipeline.LemmaResultLineParsed | tests/speed_test.c:650 | each results line parses, by lines 24-25 of harness.py, to its field and count |
| Pipeline.LemmaResultsLines | tests/speed_test.c:650-653 | the results text splits into its four lines |
| Pipeline.LemmaReadLinesSnoc | harness.py:21-25 | reading one more line applies it to the table read so far |
| Pipeline.LemmaApplyLine | harness.py:24-25 | a well-formed line sets its field to float of its value |
| Pipeline.LemmaReadFour | harness.py:21-25 | four well-formed lines give a table with their four fields |
| Pipeline.LemmaResultsParsed | tests/speed_test.c:645-655 | parse_scores (harness.py lines 16-31) of what main writes is exactly the table of the four totals |
| Pipeline.LemmaCommandAtoi | harness.py:57 | main's atoi (tests/speed_test.c lines 629-636) recovers each counter that run_test puts on the command line, and the sizes 30 and 50 |
| Pipeline.LemmaAtoiSizes | harness.py:57 | main's atoi reads the sizes "30" and "50" as 30 and 50 |
| Pipeline.LemmaAtoiTwoDigits | tests/speed_test.c:635-636 | atoi of two digits is their two-digit value |
| Pipeline.LemmaCarryOver | harness.py:57-60 | the counts one run writes (tests/speed_test.c lines 645-655) reach the next run's atoi unchanged, and TIME is in the table |

## Left out

- **Concurrency.** The benchmark's threads and mutexes are left out. The threads run one after another, each on its own counter. The index interface's answers to each call are parameters, so the counts do not depend on the interleaving.
- **Berkeley DB internals.** Transaction isolation, locking, rollback on abort, recovery and logging are left out. A deadlock or any other failure of a Berkeley DB call is an outcome parameter, not a consequence of other threads.
- **Isolation of inserts and deletes.** `insertRecord` and `deleteRecord` apply their change directly to the store. The caller's transaction only affects isolation, which is left out.
- Access.Get: when `beginTransaction` fails, the source's `get`, `getNext` and `deleteRecord` go on to abort a transaction state that was never set. The model does nothing in that case.
- Access.BeginTransaction: `env->err` messages and the `stderrfile` log output are left out.
- **Byte order.** The key union's `shortkey` and `intkey` views are read least significant byte first, as on the x86 targets the code was written for. A big-endian host is not modelled.
- KeyCodec.Window: `insertRecord` encodes with the caller's key type, so an index can hold a key shorter than its own type's width (a VARCHAR "ab" in a SHORT index). `getNext` then reads past the end of the returned key data. The model reads zero bytes there, because what C reads is undefined.
- KeyCodec.EncodeKey: the source writes SHORT and INT encodings into the caller's key buffer, overlapping the union. The model encodes into a separate value, so the caller's key is unchanged.
- Catalogue.Environment.CloseIndex: the source's commented-out code for closing the database and lowering the open count is not modelled, since it never runs.
- **Output.** All `printf` and `fprintf` output to the console and to `error.log` is left out.
- **Integer overflow.** The benchmark's counters and `globalTime` are unbounded integers; 32-bit `int` overflow is not modelled.
- **Time.** `gettimeofday` is left out; the elapsed milliseconds of a run are the parameter `elapsed`.
- **Randomness.** `rand()` after `srand(s)` is a parameter `randFor(s)` whose values lie in [0, RAND_MAX]. The per-thread seeds that `initialize` draws are drawn but never read.
- **Index creation threads.** `create_test_index` and `run`'s index-creation threads are not modelled; the model assumes the indices already exist. The index names `indexN` are not modelled either.
- **`closeIndex` in the benchmark.** Its result in `populate` and `test` is only printed, and is left out.
- SpeedTest.SpeedTestMain: requires the populate size to be at least 1 and the test count to be non-negative. With no populate inserts the source takes a remainder by zero.
- SpeedTest.SpeedTestMain: a results file that cannot be opened makes the source write through a null `FILE *`; the model always produces the text.
- **Shell steps.** `run_test`'s `mkdir`, `cp`, `chdir`, `rm` and `echo` commands are opaque steps. The seeds from `random.random()` are parameters, and so is the unit tests' exit status.
- PyText.ParseFloat: Python's `float()` is modelled on integral literals only: optional whitespace and sign, digits, and optionally a point followed by zeros. Other literals it accepts, such as "2.5", ".5", "1e3", "inf" and "nan", give the ValueError in the model. `main` writes only `%i` numerals, so its results files hold none of them.
- Harness.LemmaReadLinesFails: because of that, a line whose value is such a literal counts as malformed (`Harness.Malformed`), and the lemma states that `parse_scores` fails on it, where Python would parse it.
- PyText.Repr: Python 2's `repr` of a float is stated only for integral values, written as the decimal numeral with a trailing ".0". From 1e16 up Python writes the exponent form ("1e+16"), which the model does not. The benchmark's counters are 32-bit `int`s in C, far below that.
- **Unit tests and harness flow.** `unittests.c` is not modelled as a program; the behaviour it expects of the store is cited in the rows of Store.Insert, Access.LemmaNextStepWalk, Access.LemmaNextStepSeek and Access.DeleteRecord. The harness's top-level driver loop is not part of this model.
