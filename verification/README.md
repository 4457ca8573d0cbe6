# Verification of the COSE and SD-CWT crates

A Dafny 4.11 model of the crates' hard parts, with proofs about it. `dafny verify dfyconfig.toml`
checks all of it.

What is modelled, and what is proved about it:

* **Selective disclosure** (`sd-cwt`). Issuing rewrites a claims tree and discloses every redacted node
  under a salted hash; restoring takes the presented disclosures and rebuilds the tree. The hash function,
  the salt source and the deterministic encoder are arbitrary functions: nothing rests on cryptography.
  Requests of the pre-issuance tree are numbered in the order they are disclosed, and `Redactions` says,
  without issuing anything, what a selection of numbers leaves visible and which selections are
  ancestor-closed; `Showings` says what a restoration that keeps markers shows and what it costs. The main
  theorems relate that reading to issuing followed by restoring, for all limits and on both paths.
  For claims and disclosures that nobody issued, `Derivations` writes down how a restored value can have
  come about, and `RestoreExact` and `ReportExact` prove that restoring finds exactly the sound derivations;
  `IssueExact` proves exactly which claims can be issued.
  Modules: `Values`, `Disclosures`, `Issuance`, `IssuanceFacts`, `Restoration`, `RestorationFacts`,
  `RestorationModes`, `RootPolicy`, `RestorationLimits`, `RestorationLaws`, `Intakes`, `Redactions`,
  `Selections`, `Showings`, `IssueRestore`, `Closures`, `Originals`, `Presentations`, `ClaimKeys`, `IssuedValues`,
  `IssueForms`, `IssueExact`, `Derivations`, `RestoreExact`, `ReportExact`, `SdClaims`, `SdClaimLaws`.
* **Comparing partly hidden claims**. `ClaimMatching`, `MatchLaws`, `MatchingMaps`, `MatchMeaning`, `Completions`,
  `Copies`, `MatchExactness`.
* **Strict CBOR**. `Syntax` describes every serialization the parser knows as a tree with its head widths,
  indefinite lengths and string chunks. `StrictParser` says what the parser computes; `ParserGrammar` and
  `ParserSoundness` prove both directions of the acceptance theorem, and `WellFormedness` compares it with
  the algorithm of RFC 8949, appendix C. `DuplicateKeys`, `MessageBodies`, `MessageLaws` and `Tags` build
  on it.
* **Deterministic maps**. `Encoding`, `ByteOrder`, `Deterministic`, `CoseMaps`, `CoseMapLaws`, `MapForms`
  (RFC 8949, section 4.2.1).
* **The message layer**. `Headers`, `HeaderLaws`, `Structures`, `Sign1`, `Sign1Wire`, `Sign1Outcomes`, `Sign1Laws`
  (RFC 9052, sections 3 and 4), `Recipients`, `RecipientRules`, `RecipientLimits` (RFC 9052, sections 5.1 and 8.5).
* **Two arithmetic cores**. `Der` (RFC 8017, appendix A.1) and `Dates` (RFC 8392, section 2).

Code that works by changing state keeps that form: `RestoreRuns`, `IssueRuns`, `MatchRuns`, `ParserRuns`,
`CoseMaps`, `Sign1`, `SdClaims`, `MessageBodies` and `Der` hold the mutable objects and loops, each proved
equal to the function of the old state that the laws are about.

Assumptions about code that is not part of the repository appear as hypotheses of the theorems that need
them: `DuplicateKeys.Faithful` (encoding again what was decoded keeps a key that could be decoded),
`Deterministic.Sane` (the normal form of bignums and NaNs stays encodable),
`Sign1Wire.ReadsBack` (a map the encoder wrote, if read, is read as its canonical form) and
`SdClaimLaws.KeepsNodes` (decoding keeps the number of values). `MatchingMaps.TellsLabels` (the
deterministic encoder tells claim labels apart) is a hypothesis about an arbitrary encoder and is proved of
the one modelled here, by `MatchExactness.EncoderTellsLabels`; that disclosures of claims have claim keys
(`RestorationLaws.ValidDisclosures`) is what the source's type of labels and its checks on decoding guarantee.

Conventions. Text is its bytes. `false`, `true` and `null` are the simple values 20, 21 and 22. A float is
the bytes of its preferred serialization. Limits that overflow a machine word are limits exceeded.

Places where the code and its documents differ; the model follows the code. The parser accepts the two-byte
form of simple values 0 to 31, which RFC 8949, section 3.3, does not allow: `WellFormedness` gives an
input and the exact condition. A protected header passes as the authenticated one although the order of
entries inside one of its values differs: `Headers.NestedOrderPasses` gives an input and
`Headers.StateExact` the exact condition. The split validation of decoded recipients is equivalent to the
full one only because the strict pass bounds nesting by 128, so `Recipients.SplitCheckExact` states the
condition (at most 129 layers) for any other bound. An empty component of an RSA private key is written as an
INTEGER without content octets, which X.690, section 8.3, does not allow: `Der.EmptyIntegerIsInvalid`; every other
component is written as `Der.ContentExact` says.

## Model

| member | source | states |
|---|---|---|
| `ReportExact.RestoreExactly` | sd-cwt/src/restore.rs:105-148 | For any payload, protected claims, disclosures, hash function and limits, in both modes and on both paths: restoring succeeds with a report exactly when the disclosures can be taken in and both values have sound derivations that use every disclosure, each where its digest is first mentioned, within the item limit; on the structural path claims shown twice must agree. The report is what the derivations leave, without markers, with their counts. |
| `RestoreExact.ValueExact` | sd-cwt/src/restore.rs:296-496 | For one value from any state: exactly when some derivation of it is sound and can be run, and then its value and state. Sound: hashes of a map are filled by claims, marked elements by elements; claim keys are integers or short text and differ; no reserved value; a Holder misses nothing; the structural path adds none of eight registered claims at the root; depth and containers within the limits. |
| `ReportExact.LookupsExact` | sd-cwt/src/restore.rs:383-429 | Looking hashes up in a shrinking set of pending disclosures finds each disclosure at the first mention of its digest and nothing later, and empties the set exactly when every disclosure is mentioned. |
| `ReportExact.StripRestored` | sd-cwt/src/validation.rs:711-730 | Stripping what a derivation leaves with its markers gives what it leaves without them. |
| `Presentations.VerifierCriterion` | sd-cwt/src/restore.rs:105-129 | For every token with an issued payload and perhaps issued protected claims, every selection of the disclosures in any order and every limits: a Verifier reports a limit exactly when the limits do not cover the cost, a failed verification exactly when they do and the selection is not ancestor-closed, and otherwise the claims the selection leaves visible, with disclosed plus decoys the number presented. |
| `Presentations.StructuralCriterion` | sd-cwt/src/restore.rs:124-148 | The same with the structural validator: it also fails exactly when a claim shown by payload and protected claims does not match, which never happens where the shared claims were originally the same; the verdict and the report are then those of the plain path. |
| `Presentations.HolderCriterion` | sd-cwt/src/restore.rs:105-148 | On either path a Holder succeeds exactly when every disclosure is presented, the limits cover the cost and claims shown twice match, and then has the original claims without tags 58 and 62, each map listing plain entries and then redacted ones, with every tag 58 and every tag 62 counted once. |
| `Presentations.PresentedRestores` | sd-cwt/src/restore.rs:105-129 | The exact result of restoring payload and protected claims from a selection, on both paths: the values with the markers of what is hidden kept or dropped, the statistics and the visits, or which error. |
| `Closures.MetAllExactlyWhenClosed` | sd-cwt/src/restore.rs:122-129 | A restoration of one tree meets every disclosure presented of it exactly when no presented one is nested in an absent one. |
| `IssueRestore.ValueReturns` | sd-cwt/src/restore.rs:296-336 | Restoring what a value was issued to, for any hash function, limits and pending set and on both paths: what the selection shows, the state with exactly the disclosures met taken and the visits counted; or a limit error, exactly when a depth, a container or the total of visits on the way exceeds the limits. |
| `IssueRestore.MapReturns` | sd-cwt/src/restore.rs:338-433 | The same for maps: plain entries first, then the redacted ones in the order of their hashes. |
| `IssueRestore.ItemsReturn` | sd-cwt/src/restore.rs:434-496 | The same for arrays: visible items keep their order, absent ones and decoys leave no gap. |
| `IssuanceFacts.IssueValueGrows` | sd-cwt/src/issuance.rs:97-133 | Issuing discloses exactly one disclosure for each tag 58 and each tag 62, with pairwise distinct digests and salts, after those already there. |
| `IssuanceFacts.IssueEntriesKeys` | sd-cwt/src/issuance.rs:286-294 | Accepted maps have pairwise distinct keys once the redaction tags are taken off. |
| `IssueExact.IssueExactly` | sd-cwt/src/issuance.rs:60-280 | For any claims, salts, hash function and limits, issuing succeeds exactly when the claims are a map whose tags 58 and 62 stand only around map keys and elements, its keys are claim keys with different encodings, decoys have different positive identifiers and null values, none of eight registered claims is redacted at the root (below it they may be), items, depth and containers are within the limits, there is a fresh salt for each request, and the disclosures are sound, few and short enough, with different digests; and it returns the issued form and these disclosures, both read off the claims alone. |
| `IssuedValues.ValidateExact` | sd-cwt/src/validation.rs:481-550 | The check of an issued value passes exactly if hashes stand only in lists under simple(59) and in elements under tag 60, no other reserved value occurs, map keys are claim keys with different encodings, and items, depth and containers are within the limits; it then counts every node once. |
| `IssuedValues.KindExact` | sd-cwt/src/disclosure.rs:161-170 | A disclosure can be made exactly if its salt has 16 bytes, its key is a claim key, and its value is an issued value within the limits together with salt, key and array. |
| `Intakes.IntakeExact` | sd-cwt/src/restore.rs:240-285 | The disclosures are taken in exactly when number, bytes and item counts are within the limits and no digest and no salt repeats; each is then found under its own digest. |
| `Intakes.IntakePermutes` | sd-cwt/src/restore.rs:240-285 | Permuting the disclosures changes neither the verdict nor the resulting set. |
| `Originals.WholeVisible` | sd-cwt/src/issuance.rs:135-260 | With every disclosure selected what is visible is the tree of claims without its redaction requests. |
| `Originals.NothingRemoved` | sd-cwt/src/restore.rs:386-400 | A restoration removes nothing only if every disclosure of the tree is selected. |
| `RestorationFacts.ValueFacts` | sd-cwt/src/restore.rs:296-336 | For any hash function: pending disclosures only shrink, each one taken is counted once as disclosed or decoy, the output has no reserved tag and distinct keys, and its nodes and depth are paid for by the traversal budget. |
| `RestorationLaws.PlainSound` | sd-cwt/src/restore.rs:117-148 | On success every supplied disclosure was used, disclosed plus decoys is their number, the results carry no marker and stay within the item and depth limits together. |
| `RestorationLaws.EveryReportSound` | sd-cwt/src/restore.rs:117-148 | The same for every report, with or without the structural validator. |
| `RestorationLaws.OrderIrrelevant` | sd-cwt/src/restore.rs:105-148 | Verdict and report do not depend on the order of the disclosures. |
| `RestorationLaws.HolderIsCompleteVerifier` | sd-cwt/src/restore.rs:386-429 | A Holder succeeds exactly when a Verifier succeeds with nothing removed, and then with the same report. |
| `RestorationLaws.BothRefine` | sd-cwt/src/restore.rs:124-148 | Stripping the markers kept for the validator gives the values that drop them at once, with the same statistics and the same failures. |
| `RestorationLaws.StructuralRefinesPlain` | sd-cwt/src/restore.rs:124-148 | Whenever the structural path succeeds the plain path succeeds with the same report. |
| `RestorationLaws.PlainWithoutStructural` | sd-cwt/src/restore.rs:124-148 | Conversely, where the plain path succeeds, the structural one reports the policy error exactly when a disclosure put a claim that must never be redacted at the root of the payload or of the protected claims, else a failed verification exactly when a claim shown by both maps does not match, else the same report. |
| `RootPolicy.PolicyExact` | sd-cwt/src/validation.rs:820-829 | For one root value: where dropping markers succeeds, the root-key policy refuses exactly if restoring added one of the registered claims to the root map, and nothing else sets the two paths apart. |
| `RestorationLaws.NeverLimited` | sd-cwt/src/restore.rs:240-289 | Limits as large as the inputs themselves are never hit. |
| `RestorationModes.KeepStripValue` | sd-cwt/src/validation.rs:711-730 | The refinement for one value: keeping markers and stripping them equals dropping them. |
| `RestorationModes.ModesValue` | sd-cwt/src/restore.rs:386-400 | Holder and Verifier agree on one value as long as nothing is removed. |
| `RestorationLimits.RoomForValue` | sd-cwt/src/lib.rs:389-427 | A value never exhausts a budget that covers its own nodes and those of the disclosures it can reach. |
| `RestoreRuns.RestoreWithProtectedClaims` | sd-cwt/src/restore.rs:105-148 | The mutable run from intake to report computes the restoration function. |
| `RestoreRuns.RestoreRun.TakeInDisclosures` | sd-cwt/src/restore.rs:241-285 | The intake loop leaves exactly the intake function's map and budget, or its error. |
| `RestoreRuns.RestoreRun.RestoreValue` | sd-cwt/src/restore.rs:296-336 | Removing from the shared pending map and counting in place gives the new state and value of the function. |
| `RestoreRuns.RestoreRun.RestoreMap` | sd-cwt/src/restore.rs:338-433 | Both map loops, over entries and then over collected hashes. |
| `RestoreRuns.RestoreRun.RestoreHash` | sd-cwt/src/restore.rs:383-429 | One collected hash: absent, decoy, element or claim, with the statistics it changes. |
| `RestoreRuns.RestoreRun.RestoreArray` | sd-cwt/src/restore.rs:434-496 | The array loop. |
| `RestoreRuns.RestoreRun.RestoreElement` | sd-cwt/src/restore.rs:450-483 | One redacted element: absent, decoy, claim or element. |
| `IssueRuns.IssueFromPreissuance` | sd-cwt/src/issuance.rs:49-84 | The mutable issuing run succeeds exactly on what may be issued and returns the issued form with its disclosures. |
| `IssueRuns.IssueRun.DrawSalt` | sd-cwt/src/issuance.rs:98-104 | A salt is drawn once; a missing or repeated one is an error. |
| `IssueRuns.IssueRun.AddDisclosure` | sd-cwt/src/issuance.rs:106-131 | A disclosure is checked, counted, and rejected when its digest repeats. |
| `IssueRuns.IssueRun.IssueMap` | sd-cwt/src/issuance.rs:161-225 | The map loop: plain output, redacted hashes, the root policy at depth 0 only, and duplicate detection, as the issuing function characterized by `IssueExact.IssueExactly`. |
| `IssueRuns.IssueRun.IssueArray` | sd-cwt/src/issuance.rs:227-260 | The array loop. |
| `IssueRuns.IssueRun.RecordDecoyId` | sd-cwt/src/issuance.rs:262-280 | Decoy identifiers are integers and do not repeat. |
| `IssueRuns.TraversalBudget.Enter` | sd-cwt/src/lib.rs:399-415 | The depth test and the charge of one visited value. |
| `IssueRuns.TraversalBudget.ValidateIssuedValue` | sd-cwt/src/validation.rs:481-550 | The recursive check of an issued value under a mutable budget. |
| `Disclosures.ValueItemCount` | sd-cwt/src/lib.rs:458-478 | The worklist counts exactly the nodes of the tree. |
| `MatchLaws.MatchDecides` | sd-cwt/src/validation.rs:641-705 | On restored views the comparison never errs and decides a declarative compatibility of the two trees. |
| `MatchMeaning.MatchExactly` | sd-cwt/src/validation.rs:641-705 | It accepts two restored copies exactly if claims both show agree, claims only one shows have a list of hashes in the other, visible elements are no more than the other array holds, and elements with no marker before them, or none after them, in either array agree with those in the same place. |
| `MatchMeaning.SharedExactly` | sd-cwt/src/validation.rs:616-639 | The claims shown by two claims maps match exactly if every claim both show agrees in this sense. |
| `MatchLaws.MatchSymmetric` | sd-cwt/src/validation.rs:641-705 | It gives the same answer whichever copy comes first. |
| `Completions.CommonCompletionMatches` | sd-cwt/src/validation.rs:641-705 | Two views of one complete claims tree, hidden hashes and elements standing for what is missing, always match. |
| `Copies.ShownCompletes` | sd-cwt/src/restore.rs:296-496 | What is restored of issued claims with the markers kept is a view of the original claims, whatever is hidden. |
| `Copies.CopiesMatch` | sd-cwt/src/validation.rs:641-705 | Two restored copies of the same original claims, issued and disclosed in different ways, always match. |
| `MatchingMaps.MapsAgree` | sd-cwt/src/validation.rs:616-639 | One claims map alone is always accepted, and two are exactly when every claim visible in both matches. |
| `MatchExactness.MatchIsEquality` | sd-cwt/src/validation.rs:641-705 | With nothing hidden the comparison of any two encodable values is equality of tags, items and map contents in any order, down to scalars with one deterministic form. |
| `MatchExactness.EncodingsTell` | sd-cwt/src/validation.rs:703 | Equal deterministic encodings of encodable values mean equal canonical forms, and conversely. |
| `MatchExactness.EncoderTellsLabels` | sd-cwt/src/validation.rs:562-578 | The deterministic encoder tells any two claim labels apart. |
| `MatchRuns.MatchClaimValues` | sd-cwt/src/validation.rs:641-705 | The loops that remove matched claims from a map compute the comparison function. |
| `MatchRuns.MatchArrays` | sd-cwt/src/validation.rs:667-699 | The array comparison from both ends. |
| `MatchRuns.ValidateMatchingClaims` | sd-cwt/src/validation.rs:616-639 | The loop over several claims maps. |
| `MatchRuns.RemoveUndisclosedRedactions` | sd-cwt/src/validation.rs:711-730 | The retain loops compute stripping. |
| `SdClaims.RunFromUnprotected` | sd-cwt/src/disclosure.rs:280-337 | The loop over `sd_claims` with its shrinking item budget computes the reading function. |
| `SdClaimLaws.AcceptedWithinLimits` | sd-cwt/src/disclosure.rs:298-336 | Every accepted array: one disclosure per entry, in order; 1 + n + the sum of item counts is at most `max_items`; bytes and number within the limits; salts of 16 bytes, all different. |
| `SdClaimLaws.FromUnprotectedExact` | sd-cwt/src/disclosure.rs:280-337 | Reading the header gives these disclosures exactly if it is absent and they are none, or it is a non-empty array of at most so many byte strings, entry by entry one definite strict encoding of a sound disclosure with no more values than the array, the entries and the disclosures before it leave, bytes within the limit together, salts all different. |
| `SdClaimLaws.DecodedKindExact` | sd-cwt/src/disclosure.rs:381-409 | An array decodes to a disclosure exactly if it is the salt, or salt and value, or salt, value and claim key, in that order. |
| `SdClaimLaws.CountersAgree` | sd-cwt/src/disclosure.rs:181-198 | For an accepted disclosure without bignum tags the parser's counter, the node count of the decoded value and the item count are one number, if the decoder keeps the number of values, however it normalizes them. |
| `SdClaimLaws.ItemCountIsNodes` | sd-cwt/src/disclosure.rs:181-198 | The item count is the node count of the array the disclosure stands for. |
| `SdClaimLaws.KindRoundTrip` | sd-cwt/src/disclosure.rs:367-409 | Turning a disclosure into its array and decoding an array are inverse. |
| `ParserLaws.AcceptsExactly` | src/strict.rs:129-260 | The parser accepts exactly the serializations of one item within depth, item and definiteness limits and without duplicate keys. |
| `WellFormedness.AcceptedIsRfc` | src/strict.rs:129-260 | Accepted data is well-formed by RFC 8949 exactly when no simple value below 32 stands in it in two bytes; and data well-formed by RFC 8949 is accepted exactly when it is within the limits and free of duplicate keys. |
| `WellFormedness.RfcIsCleanGrammar` | src/strict.rs:129-260 | The algorithm of RFC 8949, appendix C, accepts exactly the serializations of the grammar without such simple values. |
| `WellFormedness.ShortSimpleAccepted` | src/strict.rs:245-253 | The two bytes f8 00 are accepted and not well-formed by RFC 8949. |
| `ParserLaws.WrittenParses` | src/strict.rs:296-314 | Any serialization within the limits, whatever its head widths and indefinite lengths, parses to its own item. |
| `ParserGrammar.AdmittedParses` | src/strict.rs:129-260 | The same at any position, depth and item count, with the resulting cursor. |
| `ParserSoundness.ParsedStands` | src/strict.rs:129-260 | Whatever parses is such a serialization, standing at the cursor and within the limits. |
| `ParserLaws.RootTiles` | src/strict.rs:46-54 | The spans of a parsed item are nested, ordered, disjoint and without gap. |
| `ParserLaws.MembersRebuild` | src/strict.rs:335-346 | The member slices of an array, between its head and its break, are the data itself. |
| `ParserLaws.PrefixFree` | src/strict.rs:300-314 | No serialization is a proper beginning of another. |
| `Readings.SameReading` | src/strict.rs:129-260 | Bytes determine the serialization they begin with, and so what follows. |
| `Syntax.DefiniteItemsAreNodes` | src/strict.rs:118-127 | Without indefinite strings the items counted are the nodes of the value. |
| `ParserRuns.RunRoot` | src/strict.rs:300-314 | The parser object, run on the whole input, computes the root function. |
| `ParserRuns.Parser.Uint` | src/strict.rs:88-112 | Reading an argument byte by byte. |
| `ParserRuns.Parser.CountOne` | src/strict.rs:118-127 | The item counter and its limit. |
| `ParserRuns.Parser.ParseItem` | src/strict.rs:129-146 | One item, advancing cursor and counter. |
| `ParserRuns.Parser.ParseAfterHead` | src/strict.rs:148-260 | The branch for each major type. |
| `ParserRuns.Parser.ChunkLoop` | src/strict.rs:172-182 | The loop over the chunks of an indefinite string. |
| `ParserRuns.Parser.CountedItems` | src/strict.rs:188-194 | The loop over a counted array. |
| `ParserRuns.Parser.ItemsToBreak` | src/strict.rs:195-202 | The loop over an array up to its break. |
| `ParserRuns.Parser.PairLoop` | src/strict.rs:205-233 | The loop over map entries with in-place duplicate detection. |
| `ParserRuns.Parser.CanonicalKeyOf` | src/strict.rs:267-293 | The in-place key comparison. |
| `DuplicateKeys.DuplicatesExact` | src/strict.rs:205-233 | A map with integer and string keys, without duplicates further inside, is accepted within the limits exactly when its keys can be decoded and no two denote the same integer or string, whatever their widths or chunks. |
| `DuplicateKeys.InPlaceAgrees` | src/strict.rs:267-293 | Where a key can be decoded, comparing it in place uses the bytes that decoding and encoding again gives. |
| `MessageBodies.Output.AppendBytes` | src/strict.rs:354-366 | Appending a possibly chunked byte string to a buffer. |
| `MessageLaws.DecodedBytes` | src/strict.rs:368-386 | A byte string decodes to the bytes it denotes, definite or chunked; null to none; nothing else decodes. |
| `MessageLaws.WrapperRoundTrip` | src/strict.rs:388-425 | For each message kind, inside any combination of wrapper tags written with any widths, the body read is exactly the untagged array, and accepted exactly when it is a message; CWT directly over an untagged array is rejected. |
| `MessageLaws.BodyIsWrapped` | src/strict.rs:388-425 | Conversely every accepted input is a valid wrapper around the message returned. |
| `MessageLaws.MessageShaped` | src/strict.rs:483-546 | The shape check accepts exactly the COSE message structures of the tag. |
| `MessageLaws.RecipientShaped` | src/strict.rs:447-470 | The recursive recipient shape check accepts exactly COSE_recipient structures. |
| `Tags.PrefixesAreHeads` | src/tag.rs:7-22 | Every fixed prefix, and the one a CWT puts before a COSE_Sign1 message, is the preferred head of its tag numbers. |
| `Tags.SkipUndoesWith` | src/tag.rs:31-46 | Stripping a prefix undoes adding it. |
| `CoseMaps.CoseMap.ToVec` | src/map.rs:137-170 | For every map and every order of iteration, the one-pass encoder with its shared key buffer and sorted index returns the naive deterministic encoding. |
| `CoseMaps.NaiveIgnoresOrder` | src/map.rs:138-142 | The naive encoding does not depend on the order entries are listed in. |
| `MapForms.SameBytesSameForm` | src/map.rs:137-170 | Two maps are encoded alike exactly when their values have the same canonical forms under the same labels. |
| `MapForms.DifferentMapsSameBytes` | src/map.rs:204-217 | Different maps may be encoded alike: the order of entries inside a value is not kept. |
| `MapForms.ReadingIsPossible` | src/map.rs:130-135 | A reading of written maps back to their canonical forms exists, as the laws about decoding suppose. |
| `CoseMaps.CoseMap.IndexKeys` | src/map.rs:143-156 | Slots of the key buffer hold the encoded keys and values of the map, each once. |
| `CoseMaps.SortedHolds` | src/map.rs:157 | Sorting the index puts the slots in the order of their key bytes. |
| `CoseMaps.Buffer.WriteHead` | src/map.rs:183-199 | A head is written in its shortest form. |
| `CoseMaps.CoseMap.Insert` | src/map.rs:50-52 | Insertion replaces and returns the previous value. |
| `CoseMaps.CoseMap.Remove` | src/map.rs:55-57 | Removal returns the previous value. |
| `Deterministic.SkippingIsSafe` | src/map.rs:204-217 | Where canonicalization is judged unnecessary it changes nothing, at any depth bound. |
| `CoseMapLaws.KeysAscend` | src/map.rs:157-162 | Keys come out strictly ascending bytewise and none begins another. |
| `CoseMapLaws.EncodedMapReadsBack` | src/map.rs:130-169 | The strict parser accepts the output, the only reading of it denotes the entries in key order, and these are the map's own canonical entries. |
| `Encoding.EncodeInjective` | src/map.rs:138-142 | Ordinary encodings of different values differ, even with more bytes behind them. |
| `Encoding.PlainDenotes` | src/map.rs:138-142 | The ordinary encoder writes a definite serialization that denotes the value, exactly as deep as the value. |
| `Encoding.EncodeExact` | src/map.rs:138-142 | Byte for byte: every value is the shortest head of its major type followed by its content, in the order of its members. |
| `Encoding.HeadIs` | src/map.rs:183-199 | The bytes of the shortest head for every major type and every argument of 64 bits. |
| `ByteOrder.LessExact` | src/map.rs:157 | One key comes before another exactly if it is a proper beginning of it or smaller at the first byte they differ in. |
| `Deterministic.CanonicalIsForm` | src/map.rs:138-142 | The canonical form of a value is the value with the entries of every map, at every depth, reordered so that encoded keys do not descend; only bignum tags and NaNs are left to the library. |
| `Deterministic.NanExact` | src/map.rs:204-217 | A float counts as NaN exactly when all bits of its exponent and some bit of its fraction are set, in every width. |
| `Sign1Outcomes.PrepareExact` | src/sign1.rs:80-89 | When preparing succeeds, what it leaves in every field whether or not it does, and the bytes returned: the Sig_structure of RFC 9052, section 4.4, letter by letter. |
| `Sign1Outcomes.PrepareDetachedExact` | src/sign1.rs:97-112 | The same for a detached payload, which the message drops. |
| `Sign1Outcomes.SignExact` | src/sign1.rs:146-154 | When signing succeeds, that the signer is given the Sig_structure over the prepared header, and the message left by success and by each failure. |
| `Sign1Outcomes.SignDetachedExact` | src/sign1.rs:160-177 | The same for a detached payload. |
| `Sign1Outcomes.SetSignatureExact` | src/sign1.rs:133-144 | A signature is stored exactly when the header of a new message can be encoded, or the bytes stored before still authenticate the header; a failure changes nothing. |
| `Sign1Outcomes.HandedExact` | src/sign1.rs:288-300 | The verifier is given the Sig_structure over the stored bytes, and the stored signature, exactly when the buckets are valid, the bytes authenticate the protected header, every critical label is known and the algorithm is the expected one. |
| `Sign1Outcomes.VerifyExact` | src/sign1.rs:260-270 | Verifying succeeds exactly on a complete message with a payload that meets these conditions and whose signature the verifier accepts over those bytes. |
| `Sign1Outcomes.VerifyDetachedExact` | src/sign1.rs:272-286 | The same for a detached payload, on a message without one. |
| `Sign1Outcomes.EncodingExact` | src/sign1.rs:215-230 | A message is written exactly when it is complete, its stored bytes authenticate a valid header and the unprotected header can be counted: behind the prefix an array of four, the payload null if it is detached. |
| `Sign1Outcomes.FromSliceExact` | src/sign1.rs:232-258 | Input becomes a message exactly when its four members can be read, the protected bytes decode and both buckets are valid together. |
| `Sign1Laws.RunsConsistent` | src/sign1.rs:114-143 | Over every run of operations and header edits: nothing is signed before completion, nothing is authenticated before preparation. |
| `Sign1Laws.CompleteIsPaired` | src/sign1.rs:114-177 | Over every run, a complete message holds the signature and the protected bytes one successful operation stored together: the signature is over those bytes, was stored for them, or both stood together in the input that was decoded. |
| `Sign1Laws.VerifyHandsSignedBytes` | src/sign1.rs:288-300 | After signing, edits, stored signatures and failed operations in any order, verifying the same payload and data hands the verifier exactly the Sig_structure the signer was given with the signature held now, or fails before. |
| `Sign1Laws.VerifyDetachedHandsSignedBytes` | src/sign1.rs:272-300 | The same for a detached payload. |
| `Sign1Laws.VerifyHandsReturnedBytes` | src/sign1.rs:80-144 | The same for the bytes prepared for an external signer. |
| `Sign1Laws.SignedVerifies` | src/sign1.rs:146-154 | A freshly signed message verifies for a verifier of its algorithm that accepts the signature over the Sig_structure and knows every critical label. |
| `Sign1Laws.VerifiedHeadersAreAuthentic` | src/sign1.rs:288-300 | A verifier is reached, with the Sig_structure, exactly when the buckets are valid, the protected header is what the stored bytes encode or decode to up to canonical forms, every critical label is known and the algorithm fits. |
| `Sign1Wire.EncodedReadsBack` | src/sign1.rs:215-230 | Encoding a complete message, tagged or inside a CWT tag, and reading the body back gives its untagged encoding. |
| `Sign1Wire.EncodedDecodes` | src/sign1.rs:200-258 | A written message is decoded exactly when the strict pass and the header decoders accept it, and is then complete with the same protected bytes, payload and signature. |
| `Sign1Wire.DecodedVerifiesAlike` | src/sign1.rs:260-300 | The decoded message hands any verifier the same bytes and signature as the one that was written, embedded or detached, or fails with the same error. |
| `Sign1Wire.ReadIsWritten` | src/sign1.rs:232-258 | Every input that is read is a wrapper around a message body, and what is read of it is what its four members denote. |
| `Sign1Wire.WrittenIsRead` | src/sign1.rs:232-258 | Conversely every message body in a valid wrapper that the strict pass accepts is read, whatever widths and chunks it is written with. |
| `Sign1Wire.DecodedCameWith` | src/sign1.rs:232-258 | A decoded message is complete, its protected header is decoded from the protected bytes, and these, the payload and the signature are members of the input. |
| `Sign1.Sign1Message.PrepareSignatureHeaders` | src/sign1.rs:114-124 | Preparing fills the headers, stores the bytes and clears the signature, also when it fails half way. |
| `Sign1.Sign1Message.StoreSignature` | src/sign1.rs:133-144 | Storing an external signature. |
| `Sign1.Sign1Message.SignWith` | src/sign1.rs:146-154 | Signing an embedded payload: the whole new state, and on success the signature over the Sig_structure. |
| `Sign1.Sign1Message.SignDetachedWith` | src/sign1.rs:160-177 | The same for a detached payload. |
| `Sign1.Sign1Message.Prepare` | src/sign1.rs:80-89 | Preparing for an external signer: the whole new state, and on success the Sig_structure is returned. |
| `Sign1.Sign1Message.PrepareDetachedSignature` | src/sign1.rs:97-112 | The same for a detached payload. |
| `Sign1.Sign1Message.EnsureProtectedAlg` | src/util.rs:173-201 | The algorithm moves to, or is checked in, the protected header. |
| `Headers.CommonExact` | src/header.rs:279-311 | The check on one bucket accepts exactly valid common parameters and a `crit` of distinct present labels. |
| `Headers.RunCheckCrit` | src/header.rs:296-308 | The loop over critical labels. |
| `Headers.BucketsExact` | src/header.rs:446-476 | The check on a layer accepts exactly two valid buckets with disjoint labels, a protected `crit` and one kind of IV. |
| `HeaderLaws.CritExact` | src/header.rs:259-277 | The check of critical headers passes exactly when the bucket is valid and every listed label is one of 1 to 7 or understood by the caller, label 7 only if the countersignatures can be read. |
| `HeaderLaws.AlgCheckExact` | src/util.rs:205-226 | The check of the algorithm passes exactly when the algorithm that counts, the protected one if there is one, is missing or the expected one. |
| `HeaderLaws.PreparingExact` | src/util.rs:37-47 | Preparing succeeds exactly when an algorithm already named is the given one, a protected key identifier is a byte string, and the buckets with what was missing filled in are valid and can be encoded; and what success and each failure leave in both buckets. |
| `HeaderLaws.PreparedContent` | src/util.rs:37-47 | Preparing puts the algorithm into the protected bucket only, keeps a key identifier that is there and otherwise places the given one, and changes nothing else. |
| `HeaderLaws.PreparingIsStable` | src/util.rs:37-47 | Preparing again changes nothing. |
| `HeaderLaws.DecodingExact` | src/header.rs:437-444 | Protected bytes decode exactly when they are empty, or a map the strict pass accepts and the library reads as a valid bucket. |
| `Headers.StateExact` | src/header.rs:492-509 | A protected view passes exactly when it can be encoded and the authenticated bytes are its encoding or decode to a header whose values have the same canonical forms. |
| `Headers.NestedOrderPasses` | src/header.rs:492-509 | A view that differs from the authenticated one in the order of entries inside a value passes: the check is up to canonical forms. |
| `Structures.StructuresInjective` | src/util.rs:126-133 | Authenticated bytes determine the structure: its context and every field, across all seven contexts. |
| `Structures.StructureBytes` | src/util.rs:126-133 | The bytes of all seven structures, written out: the head of the array, the context string letter by letter, and every field as a byte string in the order of RFC 9052. |
| `RecipientRules.LocalExact` | src/recipient.rs:182-312 | The local check of a recipient passes exactly when its buckets are valid, stored bytes authenticate the header, an algorithm is named, the rules of its class hold, and no direct recipient shares the layer below it. The rules are written out for each range of algorithm numbers: empty protected header, empty or non-empty ciphertext, no nested recipients, algorithm in the unprotected bucket, salt or nonce, ephemeral or static sender key. |
| `RecipientRules.RecipientExact` | src/recipient.rs:167-180 | The full check of one recipient passes exactly when these rules hold at every depth and at most 128 layers nest below it. |
| `RecipientRules.MessageRecipientsExact` | src/recipient.rs:410-422 | The recipients of a message pass exactly when there is one, all follow the rules at every depth, a direct one is alone, and at most 129 layers nest. |
| `RecipientRules.DeserializedEncodes` | src/recipient.rs:513-550 | What is deserialized is what the array holds, layer by layer, and follows the rules. |
| `RecipientRules.EncodedDeserializes` | src/recipient.rs:513-550 | Conversely an array of members that can be read and follow the rules is deserialized to them. |
| `Recipients.SplitCheckExact` | src/recipient.rs:407-468 | For any decoded recipients the full check accepts exactly what the top-layer check accepts and nesting permits. |
| `Recipients.SplitCheckEquivalent` | src/recipient.rs:410-431 | Within a nesting of 128 for the whole message the two checks return the same result; recipients nest at most 63 layers. |
| `Recipients.DepthCheckExact` | src/recipient.rs:171-180 | The recursive check is the local check, characterized by `RecipientRules.LocalExact`, everywhere plus a bound on the layers. |
| `Recipients.DeserializedChecked` | src/recipient.rs:508-550 | Deserialized recipients passed that local check in every layer, and two levels of nesting are spent for each layer. |
| `RecipientLimits.DecodedCheckIsFullCheck` | src/recipient.rs:421-431 | For every COSE_Encrypt or COSE_Mac message read under the default limits the split check is the full check. |
| `Der.ContentExact` | src/crypto.rs:968-983 | For every non-empty value the content octets, read as two's complement, denote the unsigned number and begin below 0x80, and no shorter octets denote it. |
| `Der.EmptyIntegerIsInvalid` | src/crypto.rs:968-983 | An empty component, and only that, is written as an INTEGER without content octets, which is not DER. |
| `Der.PublicKeyAccepted` | src/crypto.rs:1001-1052 | Every SEQUENCE of two INTEGERs, whatever length octets it uses that can be read, is accepted with its two magnitudes. |
| `Der.PublicKeyOnly` | src/crypto.rs:1001-1052 | Whatever is accepted is such a SEQUENCE, and its parts are what is returned. |
| `Der.PrivateKeyReads` | src/crypto.rs:941-965 | The private key document is consumed whole, and its INTEGERs are the version and every component in order, each without redundant zeros and positive in two's complement. |
| `Der.PublicKeyReads` | src/crypto.rs:1001-1016 | A written public key reads back as modulus and exponent. |
| `Der.TlvReads` | src/crypto.rs:1021-1031 | A written element is taken whole and what follows is left. |
| `Der.LengthReads` | src/crypto.rs:1035-1050 | Written length octets read as the length. |
| `Der.LengthIsMinimal` | src/crypto.rs:986-996 | No octets that read as a length are shorter than the written ones. |
| `Der.StrippedKeepsNumber` | src/crypto.rs:968-973 | Dropping redundant zeros keeps the number. |
| `Der.Writer.AppendLength` | src/crypto.rs:986-996 | Appending length octets. |
| `Der.Writer.AppendUnsignedInteger` | src/crypto.rs:968-983 | Appending an INTEGER whose content octets denote the number in two's complement. |
| `Der.RsaPrivateKeyDer` | src/crypto.rs:941-965 | Writing the SEQUENCE of the version and the components, each denoted by its content octets. |
| `Dates.CompareExact` | src/cwt.rs:68-85 | For every pair of dates, mixed or not, the comparison is the order of the real numbers they denote. |
| `Dates.CompareIsTotalOrder` | src/cwt.rs:49-61 | It is a total order on dates that denote numbers. |
| `Dates.CheckTimesExact` | src/cwt.rs:617-652 | A token passes the time checks exactly when its dates are integers or floats in range and, as real numbers, satisfy the three bounds. |
| `Dates.WiderSkewAccepts` | src/cwt.rs:617-652 | Widening the clock skew never rejects an accepted token. |

## Left out

- Signing, verifying, hashing and encryption themselves: signers, verifiers and hashers are arbitrary functions.
- The serde layer and the `cbor2` library: decoding to values, UTF-8 checks, and the normal forms of bignum tags and NaNs are functions or hypotheses.
- Presentations.VerifierCriterion: supposes that the disclosures of the payload and of the protected claims have no digest and no salt in common, which issuing either guarantees for itself only; presentations with a repetition are refused by the intake (`Intakes.IntakeExact`).
- JSON and other human-readable forms, `Display`, error texts, deprecated aliases, the IANA tables.
- The SD-CWT envelope: allowed algorithms, AEAD dimensions, required claims, media types, AEAD-encrypted disclosures, the input size limit.
- The lifecycles of COSE_Sign, COSE_Mac, COSE_Mac0, COSE_Encrypt, COSE_Encrypt0 and countersignatures: the same pattern as COSE_Sign1; only their authenticated structures are modelled.
- ECDH sender keys in recipients: the check of the key itself is an arbitrary function.
- Updating claim trees in place: values are immutable here, so the retain loops rebuild the tree.
- The library's ordered map and sort: `CoseMaps` uses a finite map listed in any order and an insertion sort by the same comparison.
- Dates.CompareExact: a float is the real number it denotes, so rounding of literals and arithmetic on floats play no part; infinities and NaN are rejected before.
- CoseMaps.CoseMap.ToVec: the deterministic encoder of a value is total here; the source's recursion error for values nested too deeply is not modelled.
- Names of inputs in error positions (`at byte n`) and the kind of error when several limits are exceeded at once are those of the model's first failing test, which follows the source's order.
- Taking tags off a message without decoding it (`tagged_body`, `remove_known_tags`): the same tags as in `MessageBodies.BodyItem`, without its checks.
- The grammar of media types in content type headers is an arbitrary predicate.
- Sign1Outcomes.EncodingExact: supposes byte strings shorter than 2^64, as all in memory are.
