# Verified model of the enclave's encodings, intents and session ledger

The enclave of this repository signs on behalf of users. What it signs is guarded by
four pieces of code that are small, stateful or recursive, and easy to get subtly wrong.
This project models each of them in Dafny, in the form the Rust code has (recursive
rewriters that append to a buffer, a reader that moves an offset, handlers that get,
change and put rows), and proves what each is for. `dafny verify dfyconfig.toml` checks it.

**BER to DER** (`Ber*.dfy`). `BerToDer` holds the rewriter twice: as mathematical functions
with the three outcomes success, error and out-of-range slice, and as the loops over byte
slices, each proved equal to its function. `BerLocality` proves that rewriting a value
depends on no octet after it, hence that the two passes over an indefinite-length value
split it alike. `BerTheory` defines values, encoders that choose short, long (padded or
not) or indefinite length at every node (ITU-T X.690, sections 8.1.3 and 8.1.5), and the
canonical value. `BerGrammar` describes all octets that are accepted, and what is written
for them; `BerIdentifiers` says it once more by class, form and tag number, with the
identifier octets built as section 8.1.2 builds them; `BerCrashes` describes all that slice
out of range. `BerEncodings` is the case of
BER proper: every encoding becomes the DER of the canonical value. `BerExactness` says
exactly which forests are accepted, and that all encoding choices are erased.
`BerFixedPoint` proves the written lengths shortest and the output no longer. `BerStable`
and `BerIdempotence` say exactly what is left alone, when rewriting twice equals rewriting
once, and that two runs reach a fixed point; `BerBitStrings` compares BIT STRINGs with the
standard; `BerCalls` counts recursive calls.

**Canonical JSON and intents** (`CanonicalJson`, `JsonReader`, `JsonEquality`, `JsonText`,
`CanonicalWriter`, `Intents`). A reader inverts the printer, so canonical text determines
the value up to the order of object members, and that order never changes a verdict.
`JsonText` says which text it is: members in increasing order of their keys, shortest
escapes, plain numerals.
`DecimalScaling` proves both decimal parsers against exact floor arithmetic.

**Sessions** (`Session*.dfy`, `Index*.dfy`, `JupiterSessions`, `SignJupiter`). One key-value
table holds all rows. Runs of handlers are event lists; `JupiterSessions` keeps independent
books of debits and caps and proves that the stored counter always agrees with them.
`SessionInterleaving` splits every handler into a get step and a put step and proves
serialisability of runs in which no put falls into another handler's window;
`SessionAccounts` and `SessionRevocation` say exactly what is lost and what holds in all
other runs. `SessionIndex` and `SessionRuns` prove that a user's list is a scan of the table
after any run of completed handlers, `IndexSteps` and `IndexPairs` when their steps may
interleave. `SessionHandlers` is the store object, `SessionCreates` and `SignJupiter` are
handlers end to end, from the signed intent to the table.

**Exact encodings that guard signatures** (`Rlp`, `RlpStream`, `EvmTx`, `BatchDigest`,
`Eip712`, `AbiArrays`, `Redeem`, `JupiterDecode`). RLP follows the Ethereum Yellow Paper,
appendix B; hashes are parameters about which nothing but the output length is assumed.

## What the proofs found

- The rewriter is not idempotent: `A0 05 24 03 04 01 AA` becomes `A0 03 04 01 AA`, which
  becomes `80 01 AA`. `Idempotent` gives the exact condition for every accepted input in
  which no flattened value has a long identifier, and `TwoRunsSuffice` says that a third run
  changes nothing more.
- Flattening a context-specific value keeps only the first octet of its identifier, so two
  values with different long tag numbers become the same octets (`LongTagsCollapse`). The
  output is well-formed exactly when no flattened value has a long identifier
  (`CanonWellFormed`); otherwise a second run may refuse it (`LongTagUnreadable`).
- A segment whose length runs past its constructed OCTET STRING or BIT STRING aborts the
  process, where the same mistake elsewhere is an error: `24 03 04 05 AA` aborts and
  `30 03 04 05 AA` is refused (`FiveOfOne`, `OverlongSegmentPanics`). `CrashesExactly`
  describes all octets that slice out of range. No encoding of a forest with valid
  identifiers is among them (`NormalExactly`), nor any input without octets `23` and `24`
  (`NormalSafe`).
- Every level of indefinite length doubles the work on what it holds, because children are
  rewritten once to find the end and once to write them. n nested values, in 4n octets, take
  2^n - 1 calls (`NestedDoubles`), and no forest takes more than its number of values times
  2 to its depth of such levels (`CallsBounded`).
- Four forms are accepted that BER does not have: an end marker for a value, identifier 0, an
  indefinite length on a primitive value, and a tag number in more octets than it needs:
  `1F 01 00` and `1F 80 01 00` are accepted and kept (`PaddedTagsStay`), against section 8.1.2
  of X.690.
- The header comment of `ber_to_der.rs` says that children of a segmented string are simply
  concatenated. For BIT STRING that includes each segment's unused-bits octet, which is not
  what X.690, section 8.6.4 asks for: `23 08 03 02 00 AA 03 02 04 B0` becomes
  `03 04 00 AA 04 B0` instead of `03 03 04 AA B0`. Nor are unused bits cleared, as section
  11.2.1 asks of DER: `23 04 03 02 04 BF` becomes `03 02 04 BF` instead of `03 02 04 B0`. The
  rewriter writes BIT STRINGs as the standard does exactly if each has one segment whose
  unused bits are zero (`StandardExactly`).
- A revoke can be undone: a signature that has read the row before the revoke was stored
  writes its copy back, and the copy is not revoked (`RevokeUndone`). `FrozenExactly` says
  exactly in which runs a revoke holds.
- Two overlapping signatures can both be debited from one counter value (`LostDebit`). The
  comments of `sign_jupiter_tx.rs` acknowledge this. `ConservedExactly` and `DebitsBounded`
  give the exact accounts and the worst case.
- Two overlapping creates of one user can lose a session from the index (`CrossingLosesOne`
  is the schedule, `PairsExactly` says which others do, and `ExactAtRest` says for any number
  of handlers when the index is right), and a create under an id that another user's session has takes that
  session out of the other user's list (`ListIsolated`).
- The two decimal parsers disagree on `.5`, `5.` and the empty string, which one accepts and
  the other refuses, and on amounts with more than six fractional digits, which the first
  refuses and the other cuts. `ParsersAgree` gives the exact condition over all strings of
  digits and dots.
- The comment on `CtfRedeemIntent` bounds the outcome index by 31. The code accepts every
  `u8`, and so does the model.
- The error text on array offsets in `abi.rs` says they must equal the size of the static
  words; the code accepts later ones, as the comment at the check says, and so does the model.
- The header of `sign_jupiter_tx.rs` says that it returns 501 instead of a signature. The
  code signs, and so does the model.

## Model

Rows name the members whose contracts state something about the program. Loops of the
source are methods proved equal to a specification function; the lemmas beside them are
about that function.

| member | source | states |
|---|---|---|
| `BerToDer.ReadTag` | crates/storage/src/cms_envelope/ber_to_der.rs:185-204 | The identifier-octet loop returns the split that `TagOf` defines: one octet, or all octets up to the first with a clear top bit; an error if the input ends before |
| `BerToDer.ReadLength` | crates/storage/src/cms_envelope/ber_to_der.rs:211-231 | The length loop returns the big-endian value of 1 to 8 octets, or indefinite, and the rest; the value always fits 64 bits |
| `BerToDer.WriteDefiniteLength` | crates/storage/src/cms_envelope/ber_to_der.rs:233-250 | The digit buffer of 8 never overflows, and what is appended is the shortest definite form |
| `BerToDer.AllChildrenAreOctetStrings` | crates/storage/src/cms_envelope/ber_to_der.rs:118-140 | The loop decides whether the raw contents are a non-empty run of primitive definite OCTET STRINGs that fill them exactly |
| `BerToDer.OctetStringSpan` | crates/storage/src/cms_envelope/ber_to_der.rs:122-137 | A recognised child spans at least 2 octets and never more than there are, so the scan makes progress in range |
| `BerToDer.Rewrite` | crates/storage/src/cms_envelope/ber_to_der.rs:33-114 | Progress: a rewritten value spans at least 2 octets and at most the input |
| `BerToDer.Dissect` | crates/storage/src/cms_envelope/ber_to_der.rs:42-87 | Contents are at least 2 octets shorter than the value, which is why the recursion ends |
| `BerToDer.Walk` | crates/storage/src/cms_envelope/ber_to_der.rs:74-84 | The boundary walk consumes at least its end marker and never leaves the input |
| `BerToDer.Segment` | crates/storage/src/cms_envelope/ber_to_der.rs:149-180 | A segment that is read spans at least 2 octets and at most the input |
| `BerToDer.FindEndOfContents` | crates/storage/src/cms_envelope/ber_to_der.rs:73-84 | The loop over children with throw-away buffers computes `Walk`, errors and aborts included |
| `BerToDer.DissectOne` | crates/storage/src/cms_envelope/ber_to_der.rs:42-87 | Tag, length and contents slice are those of `Dissect`; all slices are in range |
| `BerToDer.RewriteOne` | crates/storage/src/cms_envelope/ber_to_der.rs:33-114 | Appends exactly the DER form of the first value, reports how much it consumed, and on failure leaves the buffer as it was |
| `BerToDer.ToDerParts` | crates/storage/src/cms_envelope/ber_to_der.rs:89-110 | The four-way branch (string, implicit string, constructed, primitive) yields the tag and contents of `DerParts`, and their length fits 64 bits |
| `BerToDer.Normalize` | crates/storage/src/cms_envelope/ber_to_der.rs:21-29 | The outer loop computes `Normal` on every input, malformed ones included |
| `BerToDer.FindSegmentEnd` | crates/storage/src/cms_envelope/ber_to_der.rs:157-173 | A definite length past the input is an out-of-range slice here, not an error |
| `BerToDer.FlattenPrimitive` | crates/storage/src/cms_envelope/ber_to_der.rs:145-183 | The segment loop, recursive for constructed segments, computes `Flatten` with all three outcomes |
| `BerToDer.NormalSize` | crates/storage/src/cms_envelope/ber_to_der.rs:21-29 | The output is at most four times as long as the input, so every inner length fits a usize |
| `BerToDer.FlattenShrinks` | crates/storage/src/cms_envelope/ber_to_der.rs:145-183 | Flattened segments are never longer than their encodings |
| `BerLocality.RewriteAgrees` | crates/storage/src/cms_envelope/ber_to_der.rs:33-114 | If rewriting a value succeeds, any input that shares its octets has the same first value and output |
| `BerLocality.RewriteLocal` | crates/storage/src/cms_envelope/ber_to_der.rs:33-114 | Replacing everything after a value changes neither its extent nor its output |
| `BerLocality.WalkAgrees` | crates/storage/src/cms_envelope/ber_to_der.rs:74-84 | The boundary walk depends on no octet after the marker it finds |
| `BerLocality.TwoPassesAgree` | crates/storage/src/cms_envelope/ber_to_der.rs:74-102 | Normalising the contents found by the walk succeeds and yields exactly the discarded output of the walk, child by child |
| `BerLocality.SecondPassSucceeds` | crates/storage/src/cms_envelope/ber_to_der.rs:85-105 | Once the end of an indefinite-length constructed value that is no segmented string is found, rewriting it cannot fail, and emits what the search threw away |
| `BerTheory.ReadsTag` | crates/storage/src/cms_envelope/ber_to_der.rs:185-204 | Every identifier of the accepted shape, short or long, is split off exactly, whatever follows |
| `BerTheory.ReadsLength` | crates/storage/src/cms_envelope/ber_to_der.rs:211-231 | Every form of a length, padded to any of 1 to 8 octets included, is read back |
| `BerEncodings.RewriteEnc` | crates/storage/src/cms_envelope/ber_to_der.rs:33-114 | A value in any BER encoding, whatever follows it, is consumed exactly and becomes the DER of its canonical value |
| `BerEncodings.NormalEnc` | crates/storage/src/cms_envelope/ber_to_der.rs:21-29 | The same for whole forests: the output is the DER encoding of the canonical forest |
| `BerExactness.NormalExactly` | crates/storage/src/cms_envelope/ber_to_der.rs:21-183 | For every forest with valid identifiers, in any encoding: the DER of the canonical forest if constructed strings hold segments of their own type only, an error if not, and never an out-of-range slice |
| `BerExactness.FlattenFails` | crates/storage/src/cms_envelope/ber_to_der.rs:149-177 | A foreign or ill-typed segment at any depth makes flattening fail |
| `BerExactness.EncodingChoicesErased` | crates/storage/src/cms_envelope/ber_to_der.rs:3-9 | Any two BER encodings of one forest give identical octets, or are both refused |
| `BerFixedPoint.DerLengthRoundTrip` | crates/storage/src/cms_envelope/ber_to_der.rs:211-250 | Length octets written for any 64-bit number are read back with the rest untouched |
| `BerFixedPoint.DerLengthShortest` | crates/storage/src/cms_envelope/ber_to_der.rs:211-250 | No accepted definite encoding of a number is shorter than the written one |
| `BerFixedPoint.NormalDer` | crates/storage/src/cms_envelope/ber_to_der.rs:21-29 | DER is one of the BER encodings: on it the rewriter computes the canonical forest |
| `BerFixedPoint.CanonShrinks` | crates/storage/src/cms_envelope/ber_to_der.rs:89-110 | The DER of the canonical value is never longer than the DER of the value |
| `BerIdempotence.CanonWellFormed` | crates/storage/src/cms_envelope/ber_to_der.rs:94-100 | What is written for an accepted value is well-formed if and only if no flattened value had a long identifier |
| `BerIdempotence.Idempotent` | crates/storage/src/cms_envelope/ber_to_der.rs:89-110 | For every accepted input without a long identifier on a flattened value: a second run succeeds, and changes nothing if and only if no kept context-specific value holds only what becomes OCTET STRINGs, and no value is empty with identifier 0 |
| `BerIdempotence.TwoRunsSuffice` | crates/storage/src/cms_envelope/ber_to_der.rs:89-110 | If context-specific constructed values have one-octet identifiers and no value is empty with identifier 0, a third run changes nothing: the output of the second is a fixed point |
| `BerIdempotence.NotIdempotent` | crates/storage/src/cms_envelope/ber_to_der.rs:89-105 | The 7-octet counterexample and both of its outputs |
| `BerIdempotence.LongTagsCollapse` | crates/storage/src/cms_envelope/ber_to_der.rs:94-100 | Encodings that differ in a long identifier of a flattened value, beyond its first octet, give identical output |
| `BerIdempotence.LongTagUnreadable` | crates/storage/src/cms_envelope/ber_to_der.rs:94-100 | `BF 01 03 04 01 AA` is flattened to `9F 01 AA`, which a second run refuses |
| `BerGrammar.AcceptsExactly` | crates/storage/src/cms_envelope/ber_to_der.rs:21-183 | Among all octets, exactly the encodings of readable forests are accepted: BER, and four laxities (an end marker for a value, identifier 0, an indefinite length on a primitive value, a padded tag number). Whichever forest they are read as, the output is the DER of its canonical values |
| `BerGrammar.NormalLoose` | crates/storage/src/cms_envelope/ber_to_der.rs:21-183 | Every readable forest, laxities included and whatever forms its lengths are written in, becomes the DER of its canonical values: end markers dropped, segments joined at every depth, a primitive value of indefinite length kept with the raw octets up to its end marker |
| `BerGrammar.RewriteLoose` | crates/storage/src/cms_envelope/ber_to_der.rs:33-114 | One such value, whatever follows it, is consumed exactly and gives the DER of its canonical value |
| `BerGrammar.WalkLoose` | crates/storage/src/cms_envelope/ber_to_der.rs:72-86 | The walk finds the end marker behind any readable children, for all their nested length forms |
| `BerGrammar.OctetStringsLoose` | crates/storage/src/cms_envelope/ber_to_der.rs:118-140 | The implicit-string test on the raw octets holds exactly when all children are primitive OCTET STRINGs with a length |
| `BerGrammar.FlattenLoose` | crates/storage/src/cms_envelope/ber_to_der.rs:145-183 | Segments of any depth and form are concatenated in order |
| `BerIdentifiers.LeadParts` | crates/storage/src/cms_envelope/ber_to_der.rs:43-44 | An identifier octet built from any class, form and number (X.690, section 8.1.2) is taken apart into those three, and clearing its constructed bit leaves the primitive one of the same class and number |
| `BerIdentifiers.SplitsIdentifier` | crates/storage/src/cms_envelope/ber_to_der.rs:185-204 | The identifier of any class, form and tag number, in base 128 from 31 on, is split off and nothing more, whatever follows |
| `BerIdentifiers.PrimitiveStays` | crates/storage/src/cms_envelope/ber_to_der.rs:106-114 | A primitive value of any class and number, in any definite length form, is written with its identifier and contents as they are, in the shortest length |
| `BerIdentifiers.ConstructedKept` | crates/storage/src/cms_envelope/ber_to_der.rs:89-105 | A constructed value of any class and number keeps its identifier and has its contents rewritten, unless it is a BIT STRING or OCTET STRING, or context-specific with only primitive OCTET STRINGs inside |
| `BerIdentifiers.ConstructedFlattened` | crates/storage/src/cms_envelope/ber_to_der.rs:89-100 | In those cases it becomes the primitive value of the same class and number whose contents are the segments joined |
| `BerIdentifiers.SetRewritten` | crates/storage/src/cms_envelope/ber_to_der.rs:89-105 | `31 80 30 80 00 00 00 00`, a SET, becomes `31 02 30 00` |
| `BerCalls.NormalCallsLoose` | crates/storage/src/cms_envelope/ber_to_der.rs:21-183 | The number of calls of rewrite_one is that of a formula over the decoded forest: the children of a value of indefinite length count twice, segments only where an end is looked for |
| `BerCalls.NestedDoubles` | crates/storage/src/cms_envelope/ber_to_der.rs:74-102 | n nested values of indefinite length, in 4n octets, are accepted after 2^n - 1 calls |
| `BerCalls.CallsBounded` | crates/storage/src/cms_envelope/ber_to_der.rs:74-102 | On every accepted input the calls are at most the number of values times 2 to the number of nested levels of indefinite length |
| `BerCrashes.CrashesExactly` | crates/storage/src/cms_envelope/ber_to_der.rs:21-183 | Among all octets, the rewriter slices out of range on exactly those that start with readable values and go on with a way to a crash: constructed values, each with readable contents before the next, down to a segment that announces more octets than its string has left |
| `BerCrashes.StringCrashesExactly` | crates/storage/src/cms_envelope/ber_to_der.rs:145-183 | The contents of a string crash exactly if, after readable segments of its type, they have an overlong segment or one with a crash inside |
| `BerCrashes.StringValueCrashesExactly` | crates/storage/src/cms_envelope/ber_to_der.rs:64-93 | A constructed string with a length, in any form, crashes exactly if its contents do |
| `BerCrashes.WalkedParts` | crates/storage/src/cms_envelope/ber_to_der.rs:74-105 | Once the end of a value without a length has been found, nothing inside it can crash |
| `BerCrashes.OverlongSegmentPanics` | crates/storage/src/cms_envelope/ber_to_der.rs:67-158 | An overlong segment in any length form, after any readable segments, aborts inside a string, and is an error inside a SEQUENCE |
| `BerCrashes.FiveOfOne` | crates/storage/src/cms_envelope/ber_to_der.rs:67-158 | `24 03 04 05 AA` aborts, `30 03 04 05 AA` is an error |
| `BerCrashes.NormalSafe` | crates/storage/src/cms_envelope/ber_to_der.rs:89-100 | Whatever aborts has an octet 23 or 24, the identifiers of constructed strings |
| `BerCrashes.ImplicitStringsSafe` | crates/storage/src/cms_envelope/ber_to_der.rs:94-100 | What the implicit-string test accepts is flattened without error or abort |
| `BerStable.FixedExactly` | crates/storage/src/cms_envelope/ber_to_der.rs:21-110 | Among all octets, the rewriter leaves unchanged exactly the encodings, in shortest lengths, of forests in which nothing looks like a segmented string or an end marker |
| `BerStable.FixedForest` | crates/storage/src/cms_envelope/ber_to_der.rs:21-110 | The DER of a forest is unchanged if and only if nothing in that forest looks like either; octets are read as one forest only |
| `BerStable.PaddedTagsStay` | crates/storage/src/cms_envelope/ber_to_der.rs:185-204 | `1F 01 00` and `1F 80 01 00`, with padded tag numbers, are accepted and kept |
| `BerBitStrings.JoinedAsStandard` | crates/storage/src/cms_envelope/ber_to_der.rs:145-183 | For segments as X.690, sections 8.6.2 and 8.6.4 have them: joining them with their unused-bits octets gives the DER contents if and only if there is one segment whose unused bits are zero |
| `BerBitStrings.StandardExactly` | crates/storage/src/cms_envelope/ber_to_der.rs:89-110 | BIT STRINGs come out as X.690, sections 8.6.4 and 11.2.1 have them in DER if and only if each that is rewritten, primitive or constructed and nested or not, has one segment whose unused bits are zero |
| `BerBitStrings.BitStringsMisjoined` | crates/storage/src/cms_envelope/ber_to_der.rs:89-93 | The 10-octet input `23 08 03 02 00 AA 03 02 04 B0`, its output, and the standard's |
| `BerBitStrings.UnusedBitsStay` | crates/storage/src/cms_envelope/ber_to_der.rs:89-93 | One segment with unused bits set, `23 04 03 02 04 BF`: its output keeps them, the DER of the standard clears them |
| `CanonicalWriter.WriteCanonical` | crates/core/src/canonical.rs:57-130 | The recursive writer appends exactly the canonical text of the value |
| `CanonicalWriter.WriteArray` | crates/core/src/canonical.rs:94-106 | The element loop with its `first` flag prints the items in order, separated by commas |
| `CanonicalWriter.WriteObject` | crates/core/src/canonical.rs:107-128 | The loop over sorted keys and lookups prints the sorted member list of the normal form |
| `CanonicalWriter.Canonicalize` | crates/core/src/canonical.rs:45-49 | The result is the canonical text |
| `CanonicalWriter.SortedMember` | crates/core/src/canonical.rs:111-124 | The i-th sorted key with the value looked up for it is the i-th member of the sorted member list |
| `JsonReader.ReadsString` | crates/core/src/canonical.rs:71-80 | Quoted and escaped text (RFC 8259, section 7) is read back whatever follows |
| `JsonReader.ReadsValue` | crates/core/src/canonical.rs:3-7 | A reader inverts the printer for every value, in front of any text that does not extend a number |
| `JsonReader.PrintInjective` | crates/core/src/canonical.rs:3-7 | Two values have the same printed text if and only if they are equal, member order included |
| `JsonEquality.SortSorts` | crates/core/src/canonical.rs:111-112 | Sorting distinct keys yields keys that increase in the order `Less`, which `JsonText.LessExactly` spells out |
| `JsonEquality.SortDecides` | crates/core/src/canonical.rs:107-128 | Sorted member lists are equal if and only if the objects are equal as maps |
| `JsonEquality.NormDecides` | crates/core/src/canonical.rs:107-128 | Normal forms are equal if and only if the values are equal with objects read as maps at every depth |
| `JsonEquality.CanonicalDecides` | crates/core/src/canonical.rs:3-7 | Canonical text is unambiguous and blind to member order: equal texts if and only if equal values |
| `JsonEquality.PermutedMembers` | crates/core/src/canonical.rs:107-112 | Permuting the members of an object leaves it the same value |
| `JsonText.LessExactly` | crates/core/src/canonical.rs:111-112 | One key is before another if and only if it is a proper prefix of it or has the smaller character at the first place where they differ |
| `JsonText.ObjectText` | crates/core/src/canonical.rs:107-128 | The text of an object is that of its members, `"key":value` with commas between and braces around, listed so that each key precedes the next |
| `JsonText.MembersHaveOrder` | crates/core/src/canonical.rs:111-112 | The members of every object can be listed so |
| `JsonText.ArrayText` | crates/core/src/canonical.rs:94-106 | The text of an array is that of its items, in order, with commas between and brackets around |
| `JsonText.EscapeShortest` | crates/core/src/canonical.rs:71-80 | No text that is read back as a character is shorter than its escape, and hexadecimal digits are in lower case |
| `JsonText.NumberText` | crates/core/src/canonical.rs:81-93 | An integer is a minus sign if it is negative and then its digits, without leading zeros |
| `Intents.OrderIrrelevant` | crates/core/src/intents.rs:97-137 | Intents that differ in member order only, at any depth, get the same verdict from any signature primitives, the error included |
| `Intents.SignedTextFixesFields` | crates/core/src/intents.rs:97-137 | Intents with one canonical text agree on every string and integer field a handler reads |
| `Intents.VerifyIsSignedBy` | crates/core/src/intents.rs:97-137 | An intent is accepted without an expected key if and only if the key it names signed its canonical text and, where enforced, it has not expired |
| `Intents.VerifyExpected` | crates/core/src/intents.rs:98-104 | With an expected key, that key must have signed, whatever key the intent names; an empty one counts as none |
| `Intents.FieldsAreMembers` | crates/core/src/intents.rs:98-108 | A string or 64-bit number is read from an intent if and only if it has that member |
| `Intents.ExpiredExactly` | crates/core/src/intents.rs:106-115 | An intent is refused as expired if and only if expiry is enforced, it names a key, and its time is over |
| `Intents.FirstFailure` | crates/core/src/intents.rs:117-136 | Otherwise the key, the signature and the text are checked in this order, and the first failure names the error |
| `DecimalScaling.ParseDecimalToScaled` | crates/core/src/intents.rs:153-196 | Split, padding loop, truncation and checked arithmetic compute `ParseScaled` |
| `DecimalScaling.ScalingIsFloor` | crates/core/src/intents.rs:153-196 | On digits(.digits)? the result is floor(value * 10^d), an overflow exactly when 10^d or that result is at least 2^256 |
| `DecimalScaling.OthersRefused` | crates/core/src/intents.rs:154-166 | A string is refused as malformed if and only if it is not of that grammar |
| `DecimalScaling.ChecksSuffice` | crates/core/src/intents.rs:179-195 | The intermediate checks reject nothing beyond an out-of-range power or result |
| `DecimalScaling.DecimalUsdcToBaseUnits` | crates/server/src/routes/sign_evm_tx.rs:245-264 | The buffer loop computes `BaseUnits` |
| `DecimalScaling.ConcatIsFloor` | crates/server/src/routes/sign_evm_tx.rs:256-263 | Reading the zero-padded concatenation is scaling by the power of ten |
| `DecimalScaling.BaseUnitsExactly` | crates/server/src/routes/sign_evm_tx.rs:245-264 | On every string of digits and dots: a missing part counts as 0, a second dot or a seventh fractional digit is refused, and the rest is the amount times 10^6 with its exact overflow |
| `DecimalScaling.ParseScaledExactly` | crates/core/src/intents.rs:153-196 | On the same strings, with six decimals: a missing part or a second dot is refused, further digits are dropped |
| `DecimalScaling.ParsersAgree` | crates/server/src/routes/sign_evm_tx.rs:245-264 | On every string of digits and dots the parsers give the same amount, or both refuse, unless it has at most one dot, its amount fits, and either a part is missing or there are more than six fractional digits, but not both |
| `DecimalScaling.NothingBeforeDot` | crates/server/src/routes/sign_evm_tx.rs:246-263 | `.5` is accepted as 500000 by one parser and refused by the other |
| `DecimalScaling.NothingAfterDot` | crates/server/src/routes/sign_evm_tx.rs:246-263 | So is `5.`, as 5000000 |
| `DecimalScaling.NothingAtAll` | crates/server/src/routes/sign_evm_tx.rs:246-263 | So is the empty string, as 0 |
| `DecimalScaling.SeventhDigit` | crates/core/src/intents.rs:168-177 | A seventh fractional digit is refused by the first and dropped by the second |
| `SessionTable.KeyKinds` | crates/server/src/routes/hl_session.rs:29-35 | Whatever users and sessions are called, keys of the six families are told apart |
| `SessionTable.KeysInjective` | crates/server/src/routes/generic_session.rs:30-36 | Within a family different names have different keys |
| `SessionTable.TypedReads` | crates/storage/src/session_store.rs:59-75 | A typed read never meets a row of another family |
| `JupiterSessions.CounterRoundTrip` | crates/server/src/routes/sign_jupiter_tx.rs:184-184 | A written counter string parses back to the counter |
| `JupiterSessions.AdmittedAfterUpsert` | crates/server/src/routes/jupiter_session.rs:187-210 | After an upsert, of a new session or an existing one, trades are admitted exactly within the requested bounds, counting everything debited before it, which is nothing for a new one |
| `JupiterSessions.UpsertStores` | crates/server/src/routes/jupiter_session.rs:187-210 | The stored row has the requested owner, delegate, limits, assets, expiry and surface, is not revoked, and keeps the counter and the creation time of an earlier row; a new one starts at 0 and now. Without a valid key nothing is stored |
| `JupiterSessions.RevokeStores` | crates/server/src/routes/jupiter_session.rs:222-243 | A revoke marks an existing row and changes nothing else in it |
| `JupiterSessions.UnboundedExactly` | crates/server/src/routes/sign_jupiter_tx.rs:148-152 | A trade is unbounded if and only if its user has no session, and then nothing is stored |
| `JupiterSessions.RefusalsAreTrue` | crates/server/src/routes/jupiter_session.rs:80-119 | A refusal changes nothing and names the first bound, in the order they are checked, that the trade breaks or that cannot be read |
| `JupiterSessions.ParseU128Exactly` | crates/server/src/routes/jupiter_session.rs:98-114 | A stored amount reads as n if and only if it is the digits of n, after at most one plus sign, and n fits in 16 bytes |
| `JupiterSessions.RevokedIsFrozen` | crates/server/src/routes/jupiter_session.rs:222-243 | When handlers run one after another, no run of requests changes a revoked row in any way until the next upsert, and every trade is refused as revoked; overlapping handlers are the subject of `SessionRevocation` |
| `JupiterSessions.CreationTimeKept` | crates/server/src/routes/jupiter_session.rs:197-197 | Over any run in which the row persists, its creation time never changes |
| `JupiterSessions.Conservation` | crates/server/src/routes/jupiter_session.rs:187-210 | Over any run of upserts, revokes, signatures and expiries the stored counter equals the sum of all sizes debited since the row was created, at most the largest cap registered |
| `JupiterSessions.CounterMonotone` | crates/server/src/routes/jupiter_session.rs:187-197 | While the row persists the counter never decreases, upserts included |
| `JupiterSessions.DebitWithinBounds` | crates/server/src/routes/jupiter_session.rs:80-119 | A debit means: live, unexpired, allowed asset, within the per-intent limit and the cap then in force; only the counter changes, by the trade size |
| `JupiterSessions.SignedWithinDebited` | crates/server/src/routes/sign_jupiter_tx.rs:183-197 | Whichever debited trades are then signed, their sizes sum to at most what was debited |
| `JupiterSessions.SignedWithinLargestCap` | crates/server/src/routes/sign_jupiter_tx.rs:141-197 | From the creation of a row on, signed sizes sum to at most the largest cap registered |
| `JupiterSessions.MaxCapIsRegistered` | crates/server/src/routes/jupiter_session.rs:199-210 | That largest cap is the cap of the creation or of some later upsert |
| `SessionInterleaving.Serialisable` | crates/server/src/routes/sign_jupiter_tx.rs:137-190 | If no put to a key falls into another handler's window, all verdicts and rows are those of the serial run in order of put (of get, for handlers that do not put) |
| `SessionInterleaving.RunsAreSerialisable` | crates/server/src/routes/jupiter_session.rs:175-243 | The same from any initial rows, with no handler pending |
| `SessionInterleaving.ConservationWithoutOverlap` | crates/server/src/routes/jupiter_session.rs:187-210 | In such runs, with any number of users and handlers in flight, every user's counter is the sum of that user's debits |
| `SessionInterleaving.AlwaysSane` | crates/server/src/routes/sign_jupiter_tx.rs:137-190 | However steps overlap, every stored counter parses, and a row last written by a signature is within its own cap |
| `SessionInterleaving.LostDebit` | crates/server/src/routes/sign_jupiter_tx.rs:137-140 | Whenever two trades fit one by one, both can be debited in an overlap while the counter moves by the second size only |
| `SessionAccounts.GapAfterWrite` | crates/server/src/routes/sign_jupiter_tx.rs:137-190 | In any interleaving, after a put the counter falls short by what it fell short when the handler read, plus the user's debits since |
| `SessionAccounts.ConservedExactly` | crates/server/src/routes/sign_jupiter_tx.rs:137-190 | In every interleaving of any number of handlers, a counter ends at its start plus all debits if and only if the last writer read it without a gap and nothing was debited between its read and its put |
| `SessionAccounts.DebitsBounded` | crates/server/src/routes/sign_jupiter_tx.rs:137-190 | In every interleaving a user is debited at most the largest cap registered, once and once more for every put that was overtaken |
| `SessionRevocation.RevivedExactly` | crates/server/src/routes/sign_jupiter_tx.rs:148-187 | In any interleaving, a put un-revokes a row if and only if its handler is an upsert or a signature |
| `SessionRevocation.SignersAreStale` | crates/server/src/routes/sign_jupiter_tx.rs:148-187 | A signature that waits to write has seen the row not revoked, and has been overtaken if it is revoked by now: it has read the row before the revoke was stored |
| `SessionRevocation.RunRevivedExactly` | crates/server/src/routes/jupiter_session.rs:222-243 | Over a whole run a revoked row stays revoked if and only if no step of the run is such a put |
| `SessionRevocation.FrozenExactly` | crates/server/src/routes/jupiter_session.rs:222-243 | Until the next upsert, a revoked row stays revoked in a run if and only if none of the signatures in flight when it was revoked gets to write |
| `SessionRevocation.RevokeUndone` | crates/server/src/routes/sign_jupiter_tx.rs:148-187 | Whenever a trade fits, there is a run in which its signature reads, a revoke is stored and reported, the signature writes, and the session is live again |
| `SessionIndex.CreateKeeps` | crates/server/src/routes/hl_session.rs:140-158 | A create keeps every index complete and free of duplicates, stores the session, and touches no Jupiter row |
| `SessionIndex.CreateExactly` | crates/server/src/routes/hl_session.rs:140-158 | A create stores that session, appends its id to the owner's index only if new there, and changes no other session or index of any family |
| `SessionIndex.RevokeKeeps` | crates/server/src/routes/hl_session.rs:187-202 | A revoke keeps the indices and touches no Jupiter row |
| `SessionIndex.RevokeExactly` | crates/server/src/routes/hl_session.rs:191-202 | A revoke marks exactly the caller's own session of that id and no other row of any user or family |
| `SessionIndex.ListIsScan` | crates/server/src/routes/hl_session.rs:238-262 | The list holds exactly the rows the user owns in the whole table, each once |
| `IndexSteps.ExactAtRest` | crates/server/src/routes/hl_session.rs:140-197 | For any number of creates and revokes, in steps and in any interleaving: once none is pending, the index is exact if and only if, for every user, neither the entries missing when the last writer of the index read it, nor those written since that it had not read, include a stored session other than its own |
| `IndexSteps.LostAfterWrite` | crates/server/src/routes/hl_session.rs:149-158 | The recurrence behind it: after a put of the index, what it lacks is what was missing when the handler read it and what was entered since, but for its own id |
| `IndexSteps.UninterruptedCreate` | crates/server/src/routes/hl_session.rs:140-158 | The steps of a create, one right after the other, are the create of the whole handler |
| `IndexSteps.UninterruptedRevoke` | crates/server/src/routes/hl_session.rs:187-203 | So are those of a revoke |
| `IndexPairs.PairsExactly` | crates/server/src/routes/hl_session.rs:140-158 | For two creates, over all schedules of their steps: the index is broken at the end if and only if one user creates two sessions new to it and each create read it before the other put it |
| `IndexPairs.CrossingLosesOne` | crates/server/src/routes/hl_session.rs:140-158 | Wherever one user creates two sessions new to the index, the schedule both rows, both gets, both puts runs to its end and loses one of them |
| `SessionRuns.RunKeeps` | crates/storage/src/session_store.rs:32-81 | Any run over the shared table keeps the index invariant and moves a user's Jupiter row by that user's events only |
| `SessionRuns.ListIsolated` | crates/server/src/routes/hl_session.rs:140-158 | An event of another user changes a user's list if and only if it creates a session under the id of one of that user's sessions, which it takes out of the list |
| `SessionRuns.ListsStayExact` | crates/server/src/routes/generic_session.rs:240-264 | From an empty table on, after any run (ids reused across users included), every list is the scan and indices have no duplicates |
| `SessionRuns.LedgersStayBalanced` | crates/server/src/routes/jupiter_session.rs:187-210 | From an empty table on, after any run of all handlers, every user's counter agrees with the books kept from requests and verdicts |
| `SessionHandlers.SessionStore.SessionUpsert` | crates/server/src/routes/jupiter_session.rs:175-218 | The get-change-put handler makes exactly the table step of an upsert and keeps the table's invariant |
| `SessionHandlers.SessionStore.SessionRevoke` | crates/server/src/routes/jupiter_session.rs:222-243 | Likewise for a revoke; a missing row stays missing |
| `SessionHandlers.SessionStore.DebitForSign` | crates/server/src/routes/sign_jupiter_tx.rs:148-191 | Likewise for the debit before a signature; without a row nothing is written and the trade is unbounded |
| `SessionHandlers.SessionStore.Create` | crates/server/src/routes/hl_session.rs:140-158 | The two puts of a create, given the session: row put, then index get and put if the id is new, make its table step |
| `SessionHandlers.SessionStore.RevokeSession` | crates/server/src/routes/hl_session.rs:167-203 | The table step of a revoke, and whether the caller owned the session |
| `SessionHandlers.SessionStore.GetOwned` | crates/server/src/routes/hl_session.rs:213-229 | A session can be fetched by a user if and only if it is in that user's list |
| `SessionHandlers.SessionStore.ListSessions` | crates/server/src/routes/hl_session.rs:238-263 | The accumulating loop returns the list of the specification |
| `SessionCreates.HandleCreate` | crates/server/src/routes/hl_session.rs:90-163 | From the signed intent to the table, for both families: the verdict, the first missing field in the order they are read, or the session built from the fields and the table step of its create |
| `SessionCreates.HlFields` | crates/server/src/routes/hl_session.rs:109-138 | Every field of a created Hyperliquid session is the field of that name in the intent; it is not revoked and nothing is filled |
| `SessionCreates.GenericFields` | crates/server/src/routes/generic_session.rs:117-160 | So is every field of a generic one, with its defaults for an absent whitelist and an absent lowest price, created now |
| `SessionCreates.RequestedExactly` | crates/server/src/routes/hl_session.rs:109-138 | A session is built if and only if the required fields of its family are there, each of its kind |
| `SessionCreates.HlFirstMissing` | crates/server/src/routes/hl_session.rs:109-138 | Otherwise the error names the first field that is missing, in the order they are read |
| `SessionCreates.GenericFirstMissing` | crates/server/src/routes/generic_session.rs:117-160 | Likewise for the generic family |
| `SessionCreates.StringsItem` | crates/server/src/routes/hl_session.rs:111-120 | A list field is the strings among its items, in order |
| `SessionCreates.ListIsMember` | crates/server/src/routes/hl_session.rs:111-120 | It is read from the member of that name, if that is an array |
| `SessionCreates.TargetFields` | crates/server/src/routes/hl_session.rs:183-185 | A revoke names its user and its session by those two fields of the intent |
| `SessionCreates.HandleRevoke` | crates/server/src/routes/generic_session.rs:196-231 | From the signed intent to the table step of a revoke; the generic handler reports success in every case, the Hyperliquid one only if the caller owned the session |
| `SessionCreates.CreatorSigned` | crates/server/src/routes/hl_session.rs:100-124 | Whatever session is created, its owner's key signed the intent |
| `SessionCreates.RevokerSigned` | crates/server/src/routes/hl_session.rs:174-184 | Whatever session is revoked, the key of the user it is revoked for signed the intent |
| `SessionCreates.MemberOrderIrrelevant` | crates/server/src/routes/generic_session.rs:114-164 | Reordering members of the intent changes neither the session nor the error |
| `SignJupiter.Handle` | crates/server/src/routes/sign_jupiter_tx.rs:37-191 | The whole handler, the failures of both external decoders included: refusals change nothing; otherwise the table makes exactly the debit step and the request is cleared if debited or unbounded |
| `SignJupiter.AuthorisedExactly` | crates/server/src/routes/sign_jupiter_tx.rs:46-147 | A (user, asset, size) is authorised if and only if that user's key verifies the canonical intent, it is unexpired and names the asset, and the transaction decodes to a message with exactly one trade, of that asset and size |
| `SignJupiter.AuthorisedOctets` | crates/server/src/routes/sign_jupiter_tx.rs:69-147 | The authorised size is the little-endian number in octets 8 to 16 of the only perpetuals instruction if it is an increase, 16 to 24 if a decrease; the asset is `SOL`, `BTC` or `ETH` by which of the three custodies its eighth account is; no other instruction of the message starts like a trade of that program |
| `SignJupiter.RefusedInOrder` | crates/server/src/routes/sign_jupiter_tx.rs:46-135 | Every refusal is true and everything checked before it holds; once the intent is verified, none is for its key |
| `SignJupiter.MemberOrderIrrelevant` | crates/server/src/routes/sign_jupiter_tx.rs:46-60 | Reordering the intent's members, at any depth, changes no outcome of the handler |
| `Rlp.DecodesAll` | crates/core/src/evm/tx.rs:116-133 | A decoder recovers every list of items from its RLP encoding |
| `Rlp.EncInjective` | crates/core/src/evm/tx.rs:116-133 | Items have the same encoding if and only if they are equal |
| `Rlp.KnownEncodings` | crates/core/src/evm/tx.rs:116-133 | The examples of the Ethereum documentation: a string, a list, the empty string and list, and single octets |
| `RlpStreams.ListCloses` | crates/core/src/evm/tx.rs:172-182 | Announcing a list of n items and appending n items is appending that list, at any nesting |
| `RlpStreams.RlpStream.Append` | crates/core/src/evm/tx.rs:124-126 | Octets are kept equal to the encoding of the items appended, closing every list that becomes complete |
| `RlpStreams.RlpStream.BeginList` | crates/core/src/evm/tx.rs:117-118 | Opens a list; an empty one is written at once |
| `EvmTx.AppendUintFromBytes` | crates/core/src/evm/tx.rs:164-170 | The `start` loop appends the octets without their leading zeros |
| `EvmTx.AppendUint` | crates/core/src/evm/tx.rs:158-161 | The octets appended denote the number and have no leading zero octet, so there are none for 0 |
| `EvmTx.UintRecovered` | crates/core/src/evm/tx.rs:157-161 | The item of a number denotes it without a leading zero octet |
| `EvmTx.StripKeepsNumber` | crates/core/src/evm/tx.rs:163-170 | Stripping zeros never changes the number denoted |
| `EvmTx.AppendAccessList` | crates/core/src/evm/tx.rs:172-182 | The nested loops append one list of (address, keys) pairs in order |
| `EvmTx.EncodeUnsigned` | crates/core/src/evm/tx.rs:116-133 | The result is type octet 2 and the RLP list of the nine fields |
| `EvmTx.EncodeSigned` | crates/core/src/evm/tx.rs:135-155 | The result is type octet 2 and the RLP list of the nine fields and the three signature numbers |
| `EvmTx.UnsignedRecovered` | crates/core/src/evm/tx.rs:116-133 | A decoder that refuses integers with leading zeros recovers all nine fields, the nested access list included, from the signing octets |
| `EvmTx.UnsignedInjective` | crates/core/src/evm/tx.rs:116-133 | Transactions share signing octets if and only if they are equal |
| `EvmTx.SignedRecovered` | crates/core/src/evm/tx.rs:135-155 | A decoder that refuses integers with leading zeros recovers the transaction and the three signature numbers from the broadcast octets |
| `EvmTx.SignedInjective` | crates/core/src/evm/tx.rs:135-155 | Equal broadcast octets mean equal transactions and signatures |
| `EvmTx.SignedExtendsUnsigned` | crates/core/src/evm/tx.rs:116-155 | What is broadcast is, inside its list, the octets inside the list that was signed followed by the three signature items |
| `BatchDigest.HashStructCall` | crates/core/src/polymarket/batch.rs:212-223 | The word buffer hashed is type hash, padded target, value, data hash |
| `BatchDigest.HashStructBatch` | crates/core/src/polymarket/batch.rs:185-210 | The loop concatenates the call hashes in order, and the struct buffer holds the five words |
| `BatchDigest.DomainSeparator` | crates/core/src/polymarket/batch.rs:175-183 | The buffer holds the three domain hashes, the chain id and the padded wallet |
| `BatchDigest.WordsDenote` | crates/core/src/polymarket/batch.rs:180-217 | The word of an address, and that of an integer, denotes the same number as the address or the integer |
| `BatchDigest.DigestToSign` | crates/core/src/polymarket/batch.rs:139-161 | Refuses empty batches and those over 24 calls, and signs the EIP-712 digest of all others |
| `Eip712.DigestFollowsStandard` | crates/core/src/polymarket/batch.rs:175-232 | The digest is that of EIP-712 for the batch as structured data: encodeData and hashStruct applied to the domain and to the nested message, field by field, with addresses as 160-bit numbers, the type strings and chain 137 written out |
| `BatchDigest.CallsBound` | crates/core/src/polymarket/batch.rs:191-199 | Different call lists of one length with one concatenation of hashes exhibit a collision |
| `BatchDigest.DigestBindsBatch` | crates/core/src/polymarket/batch.rs:185-232 | Two batches, of whatever lengths, with one digest are equal, or a computed pair of distinct octet strings has one hash |
| `AbiArrays.ReadU256Array` | crates/core/src/evm/abi.rs:92-127 | The checks and the element loop compute `DynamicU256Array`, never reading outside the arguments |
| `AbiArrays.ReadsStored` | crates/core/src/evm/abi.rs:92-127 | An ABI-encoded array of up to 256 values at the offset its word names is returned exactly, whatever surrounds it |
| `AbiArrays.ReadIsStored` | crates/core/src/evm/abi.rs:92-127 | Conversely only such arrays are returned: the octets at the offset are the encoding of the result |
| `AbiArrays.ReadsExactly` | crates/core/src/evm/abi.rs:92-127 | A list is returned if and only if the arguments hold its ABI encoding at an acceptable offset |
| `AbiArrays.RefusalsAreTrue` | crates/core/src/evm/abi.rs:92-127 | Every refusal is true of the arguments: the offset or the length it names stands there and is out of bounds |
| `Redeem.OrBit` | crates/core/src/evm/polymarket_flows.rs:269-269 | The union operator is bitwise or, at every bit |
| `Redeem.UnionIsPower` | crates/core/src/evm/polymarket_flows.rs:265-274 | A union of any number of sets is 2^k if and only if every set is 0 or 2^k and one is 2^k |
| `Redeem.CtfDecodesExactly` | crates/core/src/evm/polymarket_flows.rs:245-264 | The checks before the union accept exactly the calldata of redeemPositions(pUSD, 0, conditionId, indexSets) to the right contract, and yield its index sets |
| `Redeem.NegRiskDecodesExactly` | crates/core/src/evm/polymarket_flows.rs:295-305 | The checks before the loop accept exactly the calldata of redeemPositions(conditionId, amounts) with the chosen outcome in range |
| `Redeem.CtfRefusals` | crates/core/src/evm/polymarket_flows.rs:244-264 | A wrong target, collateral, parent collection or condition is reported only of a call that has it, and what is checked before it holds |
| `Redeem.NegRiskError` | crates/core/src/evm/polymarket_flows.rs:310-319 | Refused if and only if another outcome has an amount, and then the first such is named, or the chosen amount is too large |
| `Redeem.ValidateCtfRedeem` | crates/core/src/evm/polymarket_flows.rs:240-278 | Accepted if and only if the earlier checks pass and every index set is empty or the chosen outcome, one of them the latter |
| `Redeem.SumOfOne` | crates/core/src/evm/polymarket_flows.rs:306-310 | All other amounts are zero if and only if the total equals the chosen amount |
| `Redeem.ValidateNegRiskRedeem` | crates/core/src/evm/polymarket_flows.rs:290-319 | Accepted if and only if the earlier checks pass and the total of all amounts equals the chosen outcome's, within the maximum; otherwise the first error in order |
| `JupiterDecode.Reader.U64` | crates/core/src/jupiter/decode.rs:282-288 | Reads eight octets and moves past them, or fails and stays |
| `JupiterDecode.Reader.OptU64` | crates/core/src/jupiter/decode.rs:290-297 | Reads the tag and the optional value that the layout says |
| `JupiterDecode.Reader.OptBool` | crates/core/src/jupiter/decode.rs:299-313 | Likewise for the optional flag, refusing other values |
| `JupiterDecode.DecodeInstruction` | crates/core/src/jupiter/decode.rs:164-224 | Driving the reader computes `DecodeIx`, with the first error in field order |
| `JupiterDecode.IncreaseRoundTrip` | crates/core/src/jupiter/decode.rs:174-196 | Decoding inverts the borsh layout for every shape of the optional field and any trailing octets |
| `JupiterDecode.DecreaseRoundTrip` | crates/core/src/jupiter/decode.rs:200-219 | The same for decreases, with both optional fields |
| `JupiterDecode.InstructionRoundTrip` | crates/core/src/jupiter/decode.rs:164-249 | Whole instructions, with discriminator and accounts by position, decode to what was encoded |
| `JupiterDecode.DecodesExactly` | crates/core/src/jupiter/decode.rs:164-249 | An instruction decodes to a trade if and only if it starts with that trade's borsh layout and the account list has its accounts in their places |
| `JupiterDecode.TradeOctets` | crates/core/src/jupiter/decode.rs:164-249 | Size, collateral, side and slippage of a decoded trade are the numbers at their offsets in the instruction, and owner and custodies are accounts 0, 7 and 8 |
| `JupiterDecode.RefusalsAreTrue` | crates/core/src/jupiter/decode.rs:164-313 | Every decoding error is true of the data: the octet it names is there and out of range, or the octets or accounts it asks for are missing, accounts being looked for last |
| `JupiterDecode.FindTrade` | crates/server/src/routes/sign_jupiter_tx.rs:69-105 | The loop returns the first decoding error, the number of trades if it is not one, or the trade |
| `JupiterDecode.ExactlyOneTrade` | crates/server/src/routes/sign_jupiter_tx.rs:100-105 | A trade gets past the count check if and only if every perpetuals instruction decodes and it is the only trade of the message |

## Left out

- BerToDer.Normalize: assumes input shorter than 2^62 octets, because output may be up to four times as long and lengths are 64-bit. Larger inputs cannot be held in memory.
- BerToDer.RewriteOne: the same bound, as for the other methods that write lengths.
- BerToDer.FindEndOfContents: the same bound; it stands for both boundary walks, which the source spells out twice.
- BerEncodings.NormalEnc: universal tag 0 is excluded as reserved; forests whose constructed strings hold foreign values are the subject of `BerExactness.NormalExactly`. BIT STRING segments are concatenated with their unused-bits octets, as the code does.
- BerExactness.NormalExactly: universal tag 0 is excluded as reserved (X.690, section 8.1.5).
- JupiterSessions.RevokedIsFrozen: sequential runs only; `SessionRevocation.FrozenExactly` is the statement for overlapping handlers.
- Redeem.CtfDecodesExactly: contract addresses and selectors are parameters.
- BerIdempotence.Idempotent: excludes forests in which a flattened value has a long identifier. Their output is not well-formed (`CanonWellFormed`), what a second run makes of it depends on the octets of the strings, and the condition is that of `BerStable.FixedExactly`, on the output.
- BerStable.FixedExactly: assumes input of less than 2^64 octets, as do its users.
- BerBitStrings.StandardExactly: assumes that segments have the shape of X.690, sections 8.6.2 and 8.6.4, without which the standard defines no value; a string without segments counts as empty, with the contents `00`. Implicitly tagged BIT STRINGs cannot be told from other values without a schema. Other rules of DER (BOOLEAN, SET OF, defaults) are not the rewriter's subject.
- BerCalls.NormalCallsLoose: counts calls of rewrite_one on accepted input; calls of flatten_primitive and copied octets are not counted. Stack depth is not modelled, so nesting deep enough to exhaust the stack is not among the aborts of `BerCrashes`.
- CanonicalWriter.Canonicalize: numbers are integers; floats, and with them the non-finite error, are not modelled. Text is a list of characters: UTF-8 encoding is left out, and `Less` orders code points, which is the order of their UTF-8 octets. Sorting keys is a library function.
- Intents.OrderIrrelevant: base58, signature decoding and Ed25519 are function parameters about which nothing is assumed.
- DecimalScaling.DecimalUsdcToBaseUnits: what the 256-bit integer parser does with characters other than digits is not modelled; such strings are refused here.
- JupiterSessions.Conservation: assumes handlers that do not overlap; overlap is `SessionInterleaving` and `SessionAccounts`. A u128 addition that overflows aborts the process and is the verdict `Aborted`.
- SessionInterleaving.Serialisable: covers the Jupiter row; rows are not dropped while handlers overlap. Index rows are `IndexSteps`.
- IndexSteps.ExactAtRest: rows are not dropped in these runs, and other families' handlers, which touch no index, are left out.
- SessionIndex.ListIsScan: creates and revokes are taken as completed; a create that fails between its two puts leaves an unlisted row.
- SessionHandlers.SessionStore.Create: takes the session to store; the fields it is built from are `SessionCreates.HandleCreate`.
- SessionHandlers.SessionStore.RevokeSession: reports whether a session was revoked; what the two handlers answer is `SessionCreates.HandleRevoke`.
- SignJupiter.Handle: base64 and message deserialisation are function parameters with their failures; delegate derivation and the signature itself are left out. A deployment without a session store behaves like one whose users have no sessions.
- RlpStreams.RlpStream.Append: the stream is an external crate, modelled by its documented behaviour of closing a list when its announced number of items is complete.
- EvmTx.UnsignedRecovered: payloads of 2^64 octets or more are excluded.
- AbiArrays.ReadsStored: an address computation beyond 64 bits aborts the process and is the error `Overflowed`.
- JupiterDecode.InstructionRoundTrip: the discriminators, hashes of instruction names, are parameters that must differ.
- Time to live: rows may be dropped at any moment, which covers every expiry policy of the table; index rows carry no expiry. Failures of the store are not modelled.
- AWS, vsock, KMS, S3, HTTP, authentication and bootstrap code are input and output plumbing.
- Key derivation, attestation documents, permits, Hyperliquid and order-book layouts, and the other transaction validators are straight-line layouts and chains of equality checks that would only add easy members.
- Polyleverage sessions appear only as rows of their own key family: no signing path uses their bounds.
