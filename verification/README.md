# Takosumi contract algorithms in Dafny

Takosumi's `contract/` directory holds self-contained algorithms that both sides of an internal boundary run: secret
redaction with source spans, cron schedules, signed calls with single-use nonces, canonical JSON and closed-shape records,
keyset paging, a bounded JSON copy, a glob matcher, an SQL statement check and version precedence. This project models
those algorithms and proves what they are for. `dafny verify dfyconfig.toml` checks the whole project.

## Layout

| files | subject |
|---|---|
| `Text`, `Order` | JavaScript string operations, string order and decimal numbers |
| `SpanTrace` | the class that carries an index map through chained rewrites |
| `Brackets`, `ValueEnds` | where a secret value ends: quotes, brackets, YAML blocks, continued shell lines |
| `Passes`, `KeyMaterial`, `Assignments` | the scanner passes, each with the list of edits it must find |
| `ValueEndLaws`, `BudgetLaws`, `YamlHeaderLaws`, `KeyLaws`, `UrlLaws` | what the text alone says about those ends, headers, keys and passwords |
| `Redaction`, `RedactionLaws` | the two pipelines over the passes |
| `Calendar`, `CronFields`, `Cron`, `CronLaws` | portable cron over the proleptic Gregorian calendar |
| `InternalRpc`, `SignedCalls` | canonical strings, signing and verifying, the nonce store as a state machine |
| `CanonicalJson`, `ClosedRecords`, `BackgroundEvents`, `BackgroundLaws`, `RunEvidence` | canonical text, closed shapes, envelopes, evidence |
| `Base64Url`, `Paging` | the page cursor and walks over a changing table |
| `BoundedClone` | the copy with one shared entry budget |
| `Glob`, `Sql`, `Semver` | three small machines with a reference semantics |

## How the model reads the source

Loops that update variables are methods with invariants, the span trace and the shared caches are classes and arrays, and
pure code is functions. A thrown error is `None` or an error value. Every method is proved against a specification that is
written without its variables, caches or buffers, and the laws are proved about the specification.

Foreign code is a parameter with only the laws it needs: the regular-expression tables of the redaction policy are functions
from a text to its ordered matches, HMAC, SHA-256 and the actor codec are any functions (a result that collisions
could break names the colliding messages as its other outcome), UTF-8 and `JSON.parse` are functions that give back the
cursor's own JSON and are otherwise arbitrary, byte lengths are a function, and a canonical timestamp is a predicate. Integers are unbounded. Numbers in JSON are identified by
their text, which is only known to have the characters of a JSON number, and an object lists each of its keys once.

## What the proofs found

- **Span tracing.** The comments call the spans structural replacement spans. A run partitions the original text into reported
  spans and survivors unless an edit narrows its mask. The only narrowing passes are the two auth-scheme passes, and what they
  drop from both is whitespace, never anything else.
- **`$` in the replacement.** The last passes of `redactString` hand the replacement to string replacement, which expands `$$`,
  `$&`, `` $` `` and `$'`; the traced pipeline uses callbacks. The pipelines agree on all tables and texts if and only if
  the replacement holds none of these patterns. With `$&` the secret-value passes of `redactString` remove nothing, whatever
  their tables find.
- **Continued values.** A value that goes beyond its budget takes the rest of the text, with two exceptions, each with an
  assignment `token=...` at which it shows. A first word longer than the budget ends where it ends, or after the blank
  or break that follows it if a backslash stands before that. And when the budget cuts a CRLF in two, the value ends after
  that break. In both assignments the line that the backslash continues stays in the text.
- **Cron normalisation.** A bare `*` in day-of-week is printed as `0,1,2,3,4,5,6` and comes back restricted. The meaning is kept
  unless day-of-week has a bare `*`, day-of-month has none, and some date of an allowed month is not allowed. Normalising can also
  lengthen a text past the 1024 characters that parsing accepts; an example of 1014 characters is given. `0 0 1 * *` is an
  expression whose normalised text matches more days.
- **Cron search.** The search fails exactly when day-of-week has a bare `*`, day-of-month has none, no allowed date exists in
  common years, and no allowed 29 February falls in the window. `0 0 29 2 *` can be refused: from the start
  of 2097 the next leap day is in 2104.
- **Nonces.** The recorder is told that it may forget a nonce after timestamp plus skew. With a delay between the timestamp check
  and the record this is single use if and only if forgetting waits at least that delay longer. The same holds of calls: then no
  run accepts two calls with one signature, up to an HMAC collision, and otherwise every genuine call can be accepted twice.
- **Joined keys.** Comparing comma-joined key lists is not a closed-shape check by itself (`digest,immutable` as one key passes for two).
  The parsers are closed all the same, because every expected key is later required. A comma inside a capability is
  another matter: a signed call verifies with the capabilities it was signed with if and only if none holds a comma, and a call
  signed with the one capability `a,b` is accepted with `a` and `b`.
- **Evidence.** The comment says that the check returns the same object. It returns a new one, which carries the same data.
- **SQL.** After the semicolon the code also accepts quoted runs, not only blanks and comments: `SELECT 1; 'x'` is single.
- **Bounded copy.** The ancestor check never decides: a value that contains itself fails the depth limit anyway.

## Model

| member | source | states |
|---|---|---|
| `SpanTrace.OriginalSpanTrace.constructor` | contract/redaction.ts:95-100 | a new trace has the whole input as its value, the identity map and no spans |
| `SpanTrace.OriginalSpanTrace.Apply` | contract/redaction.ts:102-149 | the new state is the abstract step: rewrite and record, or fail closed, or stay failed |
| `SpanTrace.OriginalSpanTrace.CheckEdits` | contract/redaction.ts:108-127 | the validation loop accepts exactly sorted, disjoint, in-bounds edits with masks inside them, and predicts the length of the result |
| `SpanTrace.OriginalSpanTrace.Rewrite` | contract/redaction.ts:128-149 | the copy loop yields the spliced text, the re-indexed map and the recorded spans |
| `SpanTrace.OriginalSpanTrace.Record` | contract/redaction.ts:151-165 | appends the maximal runs of surviving source positions in a range |
| `SpanTrace.OriginalSpanTrace.FailClosed` | contract/redaction.ts:167-171 | leaves a valid failed state, whose spans are the whole input |
| `SpanTrace.RunsCover` | contract/redaction.ts:151-165 | the recorded runs cover exactly the surviving positions |
| `SpanTrace.RunsSeparated` | contract/redaction.ts:151-165 | recorded runs are in order and separated by gaps, hence maximal |
| `SpanTrace.RecordedCover` | contract/redaction.ts:127-165 | the spans of one step cover exactly the survivors under its masks |
| `SpanTrace.RecordedDisjoint` | contract/redaction.ts:127-165 | the spans of one step are pairwise disjoint and inside the input |
| `SpanTrace.ReindexAlive` | contract/redaction.ts:127-149 | rewriting removes exactly the replaced survivors from the map |
| `SpanTrace.ReindexAligned` | contract/redaction.ts:127-149 | every map entry of the new text points to the equal original character |
| `SpanTrace.ReindexIncreasing` | contract/redaction.ts:127-149 | the entries stay strictly increasing |
| `SpanTrace.MaskedWithinRemoved` | contract/redaction.ts:127-165 | what is reported was removed; without narrowed masks the two are equal |
| `SpanTrace.ApplyKeeps` | contract/redaction.ts:102-149 | a faithful step keeps alignment, order and disjointness, and loses exactly the survivors that narrowing leaves out |
| `SpanTrace.RunCoherent` | contract/redaction.ts:88-172 | over every sequence of calls that has not failed: aligned, increasing, disjoint; with no narrowed mask, spans and survivors partition the original |
| `SpanTrace.RunFails` | contract/redaction.ts:88-172 | a run has failed exactly when some call was bad, and then reports the one whole-input span forever |
| `Brackets.BalancedIffStackEmpties` | contract/redaction.ts:1115-1163 | a bracket word is balanced exactly when the closer stack accepts it and ends empty |
| `Brackets.StackIsUnmatched` | contract/redaction.ts:1115-1163 | the stack always holds the closers of exactly the unmatched openers of the unquoted text |
| `Brackets.StructuredEndUnique` | contract/redaction.ts:1115-1163 | the end of a structured value is unique |
| `Brackets.QuotedValueEnd` | contract/redaction.ts:1115-1163 | for an opening quote the loop finds that end: escapes and doubled single quotes respected, end of text when nothing closes |
| `Brackets.BracketedValueEnd` | contract/redaction.ts:1115-1163 | for an opening bracket the loop returns the end of the shortest balanced prefix inside the budget, and end of text otherwise |
| `ValueEnds.BoundedLine` | contract/redaction.ts:585-600 | the line holds no newline and goes to a newline or the end of the text, CRLF is one break, and there is no line exactly when the limit cuts it |
| `ValueEnds.FindCredentialFieldEnd` | contract/redaction.ts:419-462 | the character loop returns the end that `ValueEndLaws.CredentialFieldEndExact` fixes |
| `ValueEndLaws.CredentialFieldEndExact` | contract/redaction.ts:419-462 | the end is the first line break inside the budget after which the field does not go on, with quotation and last character taken from a left-to-right reading of the field; otherwise the end of the text |
| `ValueEndLaws.FieldEndUnique` | contract/redaction.ts:419-462 | that end is unique |
| `ValueEndLaws.RowsAreLines` | contract/redaction.ts:585-600 | the lines that repeated reading yields are the consecutive lines of the text, up to the limit or the line that it cuts |
| `ValueEnds.FollowYamlBody` | contract/redaction.ts:981-1019 | the loop over block lines returns the end that `ValueEndLaws.YamlBlockEndExact` fixes |
| `ValueEnds.FindYamlBlockEnd` | contract/redaction.ts:917-1020 | the loops over prefix, properties, header and lines return that end, or decline |
| `YamlHeaderLaws.BlockHeaderExact` | contract/redaction.ts:917-980 | a block is read from exactly these lines: the key stands after spaces and list dashes on a line that begins near enough, and the rest of the line is at most eight anchors and tags, an indicator, at most one digit and one sign in either order, blanks and perhaps a comment, with its break near enough |
| `YamlHeaderLaws.NoBlockExact` | contract/redaction.ts:917-980 | the value is declined exactly when no header begins, or the anchors and tags lead to no indicator, or the key is not in place on a last line; in all other cases it is sealed through the end of the text |
| `YamlHeaderLaws.BlockValueEndExact` | contract/redaction.ts:917-1020 | after such a header the value ends where the lines of the text say |
| `ValueEndLaws.YamlBlockEndExact` | contract/redaction.ts:981-1031 | a block ends before its first line that is neither bare nor deep enough, if that line clearly is another key no deeper than this one, and with the text otherwise; the depth is given by the header or by the first line |
| `ValueEndLaws.BlockEndUnique` | contract/redaction.ts:981-1031 | that end is unique |
| `ValueEnds.CacheIsFresh` | contract/redaction.ts:1054-1087 | a cached newline at or after the value's end is the one a fresh scan finds |
| `ValueEnds.ContinuedShellValueEnd` | contract/redaction.ts:1054-1087 | with its shared cache the call returns what a fresh search returns, and leaves a cache that serves every later call |
| `ValueEndLaws.ContinuedEndExact` | contract/redaction.ts:1074-1095 | from any break on, the value ends with the first line that no odd run of backslashes ends; with none, at the end of the text, or where the lines run out past the budget |
| `ValueEndLaws.ContinuationOverrunsIff` | contract/redaction.ts:1074-1086 | continued lines end beyond the budget and before the end of the text exactly when all of them are continued and the last one ends there |
| `BudgetLaws.ShellEndOverrunsIff` | contract/redaction.ts:1054-1087 | the whole call ends beyond the budget and before the end of the text if and only if the first word is longer than the budget (and no backslash with one last character follows) or the budget cuts a CRLF in two after continued lines only |
| `BudgetLaws.CutBreakAssignment` | contract/redaction.ts:854-912 | the one edit of a `token=` assignment whose budget cuts a CRLF in two ends after that break, before the continued line |
| `BudgetLaws.LongAtomAssignment` | contract/redaction.ts:854-912 | the one edit of a `token=` assignment whose first word is longer than the budget ends after the break, before the continued line |
| `ValueEnds.SecretAssignmentValueEnd` | contract/redaction.ts:1033-1052 | the end of an assigned value does not depend on the cache |
| `Passes.RedactUrlCredentials` | contract/redaction.ts:322-363 | the loop finds exactly the password edits, which are sorted and disjoint and replay to its text |
| `UrlLaws.UrlEditsExact` | contract/redaction.ts:320-363 | a range is masked if and only if it is the password of a `scheme://user:password@` in the text: the scheme a letter at a word boundary and scheme characters, user and password not empty; no such URL is missed, whatever was masked before it |
| `UrlLaws.UrlEditsAreMasks` | contract/redaction.ts:320-363 | every edit of the pass is such a mask |
| `Passes.RedactCredentialFields` | contract/redaction.ts:388-417 | the same for header fields after each match |
| `Passes.ReplaceSchemes` | contract/redaction.ts:286-304 | the callback's edits keep the scheme and replay to the returned text |
| `Passes.ReplaceValues` | contract/redaction.ts:308-316 | the callback's edits replay to the returned text |
| `Passes.RedactPrivateKeyBlocks` | contract/redaction.ts:488-522 | the loop finds exactly the key-block edits, well formed, replaying to its text |
| `KeyMaterial.EarliestIndex` | contract/redaction.ts:552-557 | the loop picks the earliest opening, the first family on a tie |
| `KeyMaterial.CachedEnd` | contract/redaction.ts:560-565 | the cached closing marker is the one a fresh search from the header finds |
| `KeyMaterial.RefreshOpenings` | contract/redaction.ts:573-578 | the refreshed openings are those of a fresh search from every family's bound |
| `KeyMaterial.RedactPrivateArmorBlocks` | contract/redaction.ts:539-583 | the scanner with cached openings and closings equals the naive scanner that searches afresh every round; it terminates, and its edits replay |
| `KeyMaterial.FindPuttyEnd` | contract/redaction.ts:615-667 | the line loops return what `KeyLaws.PuttyEndExact` fixes |
| `KeyLaws.PuttyEndExact` | contract/redaction.ts:615-667 | a marker is masked exactly when it begins a key file, to the end of the MAC line that follows the first announcing line and exactly the announced number of non-empty base64 lines, and through the end of the text otherwise |
| `KeyMaterial.FindAgeEnd` | contract/redaction.ts:696-707 | the symbol loop accepts exactly a prefix, 58 Bech32 symbols and no token character beside them |
| `KeyMaterial.RedactMarked` | contract/redaction.ts:602-716 | the PuTTY and age loops find exactly their edits, well formed, replaying to the text |
| `Assignments.RedactSingleQuotedYaml` | contract/redaction.ts:731-785 | the loop finds exactly the edits of single-quoted YAML keys, well formed, replaying to its text |
| `KeyLaws.YamlKeyEndExact` | contract/redaction.ts:743-753 | the scan of a single-quoted key stops at a quote exactly where the text writes some key with its quotes doubled, and the collapsed text is that key |
| `Assignments.FindQuoteEnd` | contract/redaction.ts:843-852 | the loop returns what `KeyLaws.QuoteEndExact` fixes |
| `KeyLaws.QuoteEndExact` | contract/redaction.ts:843-852 | the position after the first double quote with an even run of backslashes before it, and -1 exactly when there is none |
| `Assignments.QuotedCandidate` | contract/redaction.ts:803-836 | one quoted key: the decision does not depend on the shared newline cache, and the cache stays good |
| `Assignments.RedactQuotedAssignments` | contract/redaction.ts:787-841 | the pass with its cache finds exactly the edits of the cache-free specification, replaying to its text |
| `Assignments.UnquotedCandidate` | contract/redaction.ts:865-907 | one separator: the same for unquoted keys |
| `Assignments.RedactUnquotedAssignments` | contract/redaction.ts:854-912 | the pass with its cache finds exactly the edits of the cache-free specification, replaying to its text |
| `Redaction.DroppedAreBlank` | contract/redaction.ts:286-304 | a survivor that an edit replaces without reporting it was whitespace in the original |
| `Redaction.StageKeeps` | contract/redaction.ts:270-316 | every traced step is faithful, so it never fails closed, and loses only whitespace |
| `Redaction.RunStage` | contract/redaction.ts:275-316 | each pass returns the specified edits and the text they splice to |
| `Redaction.TraceRedactString` | contract/redaction.ts:264-317 | the trace never fails, ends in the redacted text, and accounts for every original character except whitespace |
| `Redaction.SubstituteIdentityIff` | contract/redaction.ts:255-257 | string replacement inserts the replacement unchanged on all inputs exactly when it holds no `$` pattern |
| `Redaction.RedactString` | contract/redaction.ts:219-259 | the plain pipeline, with the last passes replaced by template |
| `RedactionLaws.PipelinesAgreeIff` | contract/redaction.ts:219-317 | both pipelines end in the same text for every table and text exactly when the replacement holds no `$` pattern |
| `RedactionLaws.EchoKeepsSecrets` | contract/redaction.ts:255-257 | with the replacement `$&` a secret-value pass of the plain pipeline returns its input, for every lawful table |
| `RedactionLaws.EchoSkipsSecretPasses` | contract/redaction.ts:254-258 | with `$&` the plain pipeline ends in the text before its secret-value passes |
| `Calendar.YearUnique` | contract/cron.ts:276-292 | every day lies in exactly one year |
| `Calendar.MakeDayOfParts` | contract/cron.ts:100-106 | rebuilding a day from its year, month and date gives the day |
| `Calendar.PartsOfMakeDay` | contract/cron.ts:276-292 | taking a built valid date apart gives year, month and date back |
| `CronFields.ListedMeans` | contract/cron.ts:197-203 | the listed values are exactly the members of the range at multiples of the step |
| `CronFields.CollectValues` | contract/cron.ts:197-203 | the value loop collects exactly them, early exit included |
| `CronFields.ParseCronField` | contract/cron.ts:150-238 | the loop over list items with its Sets and push order equals the item-by-item specification, errors included |
| `CronFields.ParsedFieldSane` | contract/cron.ts:150-238 | parsed values lie in the field's range, are not empty, and are everything for a bare `*` |
| `CronFields.ItemSettles` | contract/cron.ts:205-230 | every item is printed as pieces that re-parse to themselves and admit together the item's values |
| `CronFields.FieldReparse` | contract/cron.ts:150-238 | re-parsing a normalised field keeps its value set and its text; only day-of-week loses the bare `*` |
| `Cron.InstantOrder` | contract/cron.ts:70-107 | whole minutes are ordered like their day and minute of the day |
| `Cron.SortedValues` | contract/cron.ts:79-82 | the sorted list is strictly increasing and has exactly the field's values |
| `Cron.SearchDay` | contract/cron.ts:90-110 | the hour and minute loops find the least allowed minute beyond the floor, or show that there is none |
| `Cron.NextOccurrence` | contract/cron.ts:63-116 | returns the least matching minute strictly after the instant; fails exactly when no match lies on search days 0 to 1831 |
| `CronLaws.OccursInOrdinaryYears` | contract/cron.ts:63-116 | outside the leap-day case the search always succeeds |
| `CronLaws.OnlyLeapDays` | contract/cron.ts:285-292 | when no allowed date exists in common years, every match is a 29 February |
| `CronLaws.ThrowsIff` | contract/cron.ts:63-116 | the search fails if and only if day-of-week has a bare `*`, day-of-month has none, no allowed date exists in common years and no allowed leap day's minute falls in the window |
| `CronLaws.LeapDayCanBeTooFar` | contract/cron.ts:16-16 | a schedule for 29 February alone, asked for at the start of 2097, fails |
| `CronLaws.LeapDayExpressionCanBeTooFar` | contract/cron.ts:63-116 | `0 0 29 2 *` is such an expression |
| `CronLaws.ExpressionReparse` | contract/cron.ts:118-148 | normalised text parses again exactly when it is at most 1024 long, and then to the same fields up to the day-of-week `*` |
| `CronLaws.NormalizedMatchesIff` | contract/cron.ts:276-292 | the match relation is kept if and only if it is not the case that day-of-week has a bare `*`, day-of-month has none and some date of an allowed month is not allowed |
| `CronLaws.NormalizedExpressionMatchesIff` | contract/cron.ts:45-54 | the same about an expression and its normalised text |
| `CronLaws.NormalizedCanBeTooLong` | contract/cron.ts:118-148 | an accepted expression of 1014 characters whose normalised text of 1026 is refused |
| `CronLaws.NormalizingChangesMeaning` | contract/cron.ts:206-209 | `0 0 1 * *` does not match an instant that its normalised text matches |
| `InternalRpc.NormalizeCapabilities` | contract/internal-rpc.ts:669-677 | the result is strictly sorted and its members are exactly the trimmed capabilities that are not empty |
| `InternalRpc.ReadBackIffCommaFree` | contract/internal-rpc.ts:663-677 | reading the joined header back gives the normalised list exactly when no capability holds a comma |
| `InternalRpc.NoCanonicalDelimiter` | contract/internal-crypto.ts:68-78 | the loop accepts exactly fields without newlines |
| `InternalRpc.CanonicalRequestInjective` | contract/internal-rpc.ts:477-495 | two canonical requests are equal if and only if they bind the same method, path, times, ids, parties, digest, actor and joined capabilities; for capabilities without commas, if and only if they bind the same capability set |
| `InternalRpc.CommaCollides` | contract/internal-rpc.ts:477-495 | a comma inside a capability makes two different capability sets canonicalise alike, and to a text wherever the request has one |
| `InternalRpc.CanonicalResponseInjective` | contract/internal-api.ts:54-72 | equal canonical responses have equal fields and equal bodies, newlines in the body included |
| `InternalRpc.RequestIsNotResponse` | contract/internal-api.ts:54-72 | no canonical request is a canonical response |
| `SignedCalls.TimingSafeEqual` | contract/internal-crypto.ts:86-94 | the accumulated difference of lengths and characters is zero exactly for equal strings |
| `SignedCalls.SignedCallVerifies` | contract/internal-rpc.ts:511-661 | a signed call verifies as it was signed if and only if its headers are complete, it arrives inside the skew window, it is admitted, its actor survives the codec with the same request id, and no capability holds a comma |
| `SignedCalls.CommaCallGainsCapabilities` | contract/internal-rpc.ts:582-609 | a call signed with the capability `a,b` is accepted with `a` and `b` where `a` is required |
| `SignedCalls.OneSignatureOneCall` | contract/internal-rpc.ts:563-661 | two accepted calls with one signature bind the same values, verify alike and have the same body, or their texts collide under the HMAC or their bodies under the digest |
| `SignedCalls.SignedResponseVerifies` | contract/internal-api.ts:74-157 | a signed response verifies, whatever the case of the method, if and only if its headers are complete, its timestamp is inside the skew window and its request id is the expected one or none is expected |
| `SignedCalls.OneSignatureOneResponse` | contract/internal-api.ts:91-157 | two accepted responses with one signature are the same response, or their texts collide under the HMAC |
| `SignedCalls.RequestSignatureIsNoResponse` | contract/internal-api.ts:117-157 | the signature of an accepted request verifies no response, up to an HMAC collision |
| `SignedCalls.GateStepRefines` | contract/internal-rpc.ts:602-651 | every step of the verifier on whole calls (arrival after authentication, record of the nonce, forgetting, clock) is the same step of the ticket machine |
| `SignedCalls.StepIsSafe` | contract/internal-rpc.ts:636-651 | every step of clock, check, record and forget keeps the invariant that accepted tickets are remembered while they could be accepted |
| `SignedCalls.RunIsSafe` | contract/internal-rpc.ts:80-106 | the invariant holds after every run |
| `SignedCalls.ReplayRunReplays` | contract/internal-rpc.ts:80-106 | when forgetting waits less than recording may take, a concrete run accepts one ticket twice |
| `SignedCalls.SingleUseIff` | contract/internal-rpc.ts:80-106 | no run accepts a ticket twice if and only if the delay is at most the grace; delay 0 is the atomic case |
| `SignedCalls.GateRunRefines` | contract/internal-rpc.ts:563-661 | every run of the verifier on whole calls is a run of the ticket machine, and everything it accepts was authenticated |
| `SignedCalls.SignatureAcceptedOnce` | contract/internal-rpc.ts:80-106 | with the delay at most the grace, no run accepts two calls with one signature unless their canonical texts collide under the HMAC |
| `SignedCalls.CallAcceptedOnceIff` | contract/internal-rpc.ts:80-106 | a genuine call is accepted at most once in every run if and only if the delay is at most the grace |
| `CanonicalJson.RenderInjective` | contract/background-events.ts:496-512 | different JSON data never renders to the same text |
| `CanonicalJson.StableIsRender` | contract/background-events.ts:496-512 | the recursive text of a value is the rendering of its data, and there is none exactly when the code throws |
| `CanonicalJson.StableIffSameData` | contract/background-events.ts:496-512 | two values have the same text if and only if they denote the same data |
| `CanonicalJson.KeyOrderIsIrrelevant` | contract/background-events.ts:496-512 | neither key order nor undefined-valued keys, at any depth, change data or text |
| `CanonicalJson.SameTextIffAlike` | contract/background-events.ts:496-512 | two values have the same text if and only if they are equal up to key order and undefined-valued keys at every depth |
| `ClosedRecords.MembersWeigh` | contract/background-events.ts:478-487 | among sorted key lists a superset is longer when joined, unless it is the same list |
| `ClosedRecords.ClosedShape` | contract/background-events.ts:478-487 | a record that passes the joined-key comparison and defines every expected key has no other key |
| `ClosedRecords.JoinedKeysCollide` | contract/runs.ts:558-570 | the comparison alone accepts a record with one key that spells two |
| `BackgroundEvents.ParseMessages` | contract/background-events.ts:380-403 | a list parses item by item, and fails exactly when an item does |
| `BackgroundEvents.ParsesResourceIff` | contract/background-events.ts:306-328 | a resource is accepted exactly when the record says it and it fits its name, workspace and kind |
| `BackgroundLaws.EnvelopeClosed` | contract/background-events.ts:106-149 | an accepted envelope has exactly the expected keys in every object checked by joined keys |
| `BackgroundLaws.ParseIdempotent` | contract/background-events.ts:106-149 | parsing the returned envelope gives the same envelope |
| `BackgroundLaws.EnvelopeData` | contract/background-events.ts:106-149 | two envelopes denote the same data if and only if they are equal, message bodies counted as data |
| `BackgroundLaws.DigestTextIffSameEnvelope` | contract/background-events.ts:215-226 | the text that is hashed is equal for two accepted inputs if and only if the parsed envelopes are equal |
| `RunEvidence.ProvidersSorted` | contract/runs.ts:476-485 | the loop over neighbours decides whether the whole list is in order by source and digest |
| `RunEvidence.CommitClosed` | contract/runs.ts:522-556 | an accepted commit has exactly the keys of one of its forms, although key texts are compared |
| `RunEvidence.EvidenceClosed` | contract/runs.ts:382-447 | accepted evidence has exactly the expected keys in every checked object |
| `RunEvidence.EvidenceKeepsData` | contract/runs.ts:381-447 | the returned evidence carries exactly the data of the accepted value |
| `Base64Url.RoundTrip` | contract/pagination.ts:66-78 | decoding an encoded byte string gives it back, for every byte string (section 5 of RFC 4648) |
| `Base64Url.EncodeIsUrlSafe` | contract/pagination.ts:66-70 | a token holds only letters, digits, `-` and `_`, and is empty only for no bytes |
| `Base64Url.Base64UrlEncode` | contract/pagination.ts:66-70 | the loop that builds the binary string computes the encoding |
| `Base64Url.Base64UrlDecode` | contract/pagination.ts:72-78 | the loop that fills the byte array computes the decoding, and fails exactly where `atob` throws |
| `Paging.ClampPageLimit` | contract/pagination.ts:58-64 | the limit is within 1 to 100 and the largest whole number not above the request |
| `Paging.CursorRoundTrip` | contract/pagination.ts:84-116 | a cursor given back is the key it was made from |
| `Paging.PageIsBeyond` | contract/pagination.ts:124-144 | a page holds table rows beyond the cursor, in order, and its cursor stands at its last row |
| `Paging.PageSkipsNothing` | contract/pagination.ts:124-144 | a row beyond the cursor is on the page or beyond the page |
| `Paging.ProbeGivesSamePage` | contract/pagination.ts:151-161 | the page from a query for one row too many equals the page of the whole table |
| `Paging.WalkIncreases` | contract/pagination.ts:177-200 | following the cursor while the table changes returns strictly increasing keys |
| `Paging.WalkRepeatsNothing` | contract/pagination.ts:177-200 | no key is returned twice |
| `Paging.WalkReturnsStableKeys` | contract/pagination.ts:177-200 | a key that every request finds in the table is returned by a walk that completes |
| `Paging.WalkInventsNothing` | contract/pagination.ts:177-200 | every returned row was in the table at some request |
| `Paging.WalkOfFixedTable` | contract/pagination.ts:124-144 | on a fixed table, requests enough for its rows complete the walk and return exactly the table |
| `Paging.AfterIsStrictTotal` | contract/pagination.ts:226-246 | the descending order is a strict total order, so every walk law holds for the descending pages |
| `Paging.BeforeIsStrictTotal` | contract/pagination.ts:131-135 | the order by time and id is a strict total order |
| `BoundedClone.UnfoldIffAllFit` | contract/notification-pushers.ts:871-952 | a value has a tree within the limits if and only if every value that a path leads to keeps the limits at its depth |
| `BoundedClone.CycleHasNoTree` | contract/notification-pushers.ts:890-892 | a value that leads back to itself has no tree at any depth |
| `BoundedClone.CloneBoundedJsonValue` | contract/notification-pushers.ts:871-952 | succeeds exactly when the tree exists and its entries fit the rest of the shared budget; the clone is the tree, the budget grows by its entries, the ancestors are restored on every path |
| `BoundedClone.CloneSlots` | contract/notification-pushers.ts:894-951 | the same for the loop over the entries of one object |
| `BoundedClone.FitsInAnyOrder` | contract/notification-pushers.ts:926-951 | whether a value is copied does not depend on the order in which any object lists its entries |
| `BoundedClone.ParseBoundedPusherDataObject` | contract/notification-pushers.ts:852-869 | accepts exactly plain objects within all limits, and returns their tree |
| `Glob.MatchesIffCuts` | contract/plan-scope.ts:128-139 | a pattern matches exactly the texts that can be cut into one fitting piece per token |
| `Glob.ReachPosition` | contract/plan-scope.ts:113-126 | marks exactly what stars may skip to, in spite of stopping at the first marked position, in as many steps as it marks plus one |
| `Glob.AliveIffStepped` | contract/plan-scope.ts:85-108 | after one character the new positions can match the rest exactly when the old ones could match it with the character |
| `Glob.Advance` | contract/plan-scope.ts:86-104 | the inner loop marks exactly the positions reached by the character |
| `Glob.ResourceTypeMatchesPattern` | contract/plan-scope.ts:72-110 | equals the recursive glob meaning for every pattern and text, in at most 5 (p + 1)(t + 1) steps |
| `Sql.AnalyzeSql` | contract/managed-relational-runtime.ts:305-451 | the one-pass scanner equals the two-phase reference: first plain text and gaps, then tokens of the plain text only |
| `Sql.ReferenceSteps` | contract/managed-relational-runtime.ts:384-417 | reading token by token gives single statement, first word and parameter count of the reference |
| `Sql.SemisAreSemicolons` | contract/managed-relational-runtime.ts:385-389 | every semicolon of the plain text is a token of its own |
| `Sql.SingleHasOneSemicolon` | contract/managed-relational-runtime.ts:385-390 | an accepted statement has at most one semicolon outside quotes and comments |
| `Sql.QuotedRunAfterSemicolon` | contract/managed-relational-runtime.ts:367-390 | `SELECT 1; 'x'` is a single statement |
| `Sql.LargestCoversNumbers` | contract/managed-relational-runtime.ts:391-410 | the parameter count is the largest number that `?` and `?N` take |
| `Sql.ParseStatement` | contract/managed-relational-runtime.ts:261-303 | accepts exactly well-shaped single runtime statements whose parameter count and values fit; reports DDL exactly for DDL words |
| `Semver.ExactIffRendered` | contract/credential-recipes.ts:230-238 | the accepted strings are exactly the texts of valid versions |
| `Semver.ParsedRender` | contract/credential-recipes.ts:254-264 | splitting a version's text gives its identifiers back |
| `Semver.NumericIsIntegerComparison` | contract/credential-recipes.ts:290-293 | length first, then text, is the comparison of the numbers |
| `Semver.ComparePrereleaseIdentifiers` | contract/credential-recipes.ts:266-287 | the loop decides the identifier-list order of section 11.4 of Semantic Versioning 2.0.0 |
| `Semver.CompareExactProviderVersions` | contract/credential-recipes.ts:241-252 | the sign is that of version precedence, build metadata ignored |
| `Semver.BelowTotal` | contract/credential-recipes.ts:241-252 | precedence is total and antisymmetric up to build metadata |
| `Semver.BelowTransitive` | contract/credential-recipes.ts:241-252 | precedence is transitive |
| `Semver.ProviderVersionMeetsRuntimeInputFloor` | contract/credential-recipes.ts:210-228 | true exactly for exact versions that meet the floor |
| `Semver.MeetsIsPreorder` | contract/credential-recipes.ts:210-228 | meeting the floor is reflexive and transitive on exact versions |
| `Semver.MeetsIsUpwardClosed` | contract/credential-recipes.ts:199-228 | among stable releases of one non-zero major a later release meets every floor an earlier one meets |
| `Semver.MeetsIgnoresBuild` | contract/credential-recipes.ts:199-228 | build metadata never changes the answer |

## Left out

- Regular-expression tables of `contract/redaction.ts` (secret keys, secret values, auth schemes, header fields): abstract functions that return ordered matches.
- `redactJsonValue`, `isSecretKey` and `containsSecretLikeString`: direct uses of those tables.
- Lone surrogates: text is a sequence of Unicode characters, so positions count characters, and string order compares characters where JavaScript compares UTF-16 code units.
- The ECMAScript limit of 8.64e15 milliseconds and invalid dates in `contract/cron.ts`: instants are unbounded integers.
- HMAC, SHA-256, UTF-8, URL parsing and Unicode case mapping: abstract functions.
- A non-finite clock skew, and verification without a nonce recorder.
- Header reading, the service directory, the client, trace spans and fetch in `contract/internal-rpc.ts`.
- `toJSON`, accessors, sparse arrays and exotic prototypes in the JSON inputs; in the bounded copy such objects are refused as a whole.
- The authority and acknowledgement parsers of `contract/background-events.ts` beside the envelope: the same closed-record argument.
- The batch totals, responses and result metadata of `contract/managed-relational-runtime.ts`.
- BoundedClone.CloneSlots: arrays and plain objects share one loop, with an array's indices as its keys.
- Policy normalisation and RFC 6901 selectors in `contract/plan-scope.ts`: field-by-field validation.
- Aliasing of the arrays that a page or a parser returns with its input: results are values.
- The uninstall, install-plan, billing and identity-merge contracts, whose transitions are not part of this model, and the long validators of manifests, readiness, hardening and interface clients.
