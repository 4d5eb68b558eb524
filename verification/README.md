# Verified models of lunora's protocol cores

Dafny models of the parts of lunora whose correctness is hard to see by reading, with proofs of the properties they
are written for. `dafny verify dfyconfig.toml` checks everything.

| file | models | source |
|---|---|---|
| `JsNumber.dfy`, `JsText.dfy`, `Json.dfy`, `Utf8.dfy` | JavaScript's 32-bit operators and exact doubles, strings of 16-bit units, `JSON.stringify`/`JSON.parse`, `TextEncoder` | used by all |
| `Sha256.dfy`, `RoundConstants.dfy` | the hand-written SHA-256 over typed arrays, against FIPS 180-4, and what its constants are | `shared/claims-fingerprint.ts` |
| `Fingerprint.dfy` | canonical claims text and the fingerprint built on it | `shared/claims-fingerprint.ts` |
| `Base64.dfy` | the one-pass and the chunked encoder, and decoding, against RFC 4648 | `shared/base64.ts` |
| `Hmac.dfy`, `AdminToken.dfy` | signed texts; named tokens, signals and socket sub-tokens | `shared/hmac-url.ts`, `shared/admin-token.ts`, `shared/ws-admin-token.ts` |
| `Prompt.dfy`, `Openings.dfy` | the fence discipline of every prompt, and what an opening prompt says | `shared/ai-prompt.ts`, `shared/ai-chat.ts` |
| `TokenStream.dfy`, `Narrator.dfy` | the incremental event-stream reader and the narrator it feeds | `shared/ai-prompt.ts`, `shared/ai-chat.ts` |
| `Transcript.dfy`, `FitToBudget.dfy`, `ToolRequest.dfy` | transcript budget, list-shrinking serialiser, tool requests | `shared/ai-chat.ts` |
| `Approval.dfy`, `ChatTurn.dfy`, `Replies.dfy`, `Cards.dfy` | approval tickets, one turn as a bounded loop, runs of many turns, what a turn answers and reports, and particular cards | `shared/ai-chat.ts` |
| `StartupGraph.dfy` | the breadth-first import walk and its shortest chains | `scripts/check-worker-startup.js` |
| `BulkDrain.dfy` | the paged drain against a host that other writers change | `shared/bulk-drain.ts` |
| `KeyWords.dfy`, `Redaction.dfy` | key classification and the budgeted walk over cyclic object graphs | `shared/credential-redaction.ts` |
| `Cron.dfy` | the cron validator against its grammar | `shared/cron-expression.ts` |

Code that updates state is modelled by methods over arrays, fields and loops, each proved equal to a function; the
properties are then lemmas about that function. What the source calls and does not define (a model's replies, a
browser's fields, the clock, a tool runner, a shard, other writers, the statement classifier, `Number`, HMAC) is an
arbitrary function or value, so every statement holds for all of them.

HMAC is idealised in the usual way, as a record of what was signed: bytes verify under a key only if they were signed
under that key (`Hmac.Ideal`, `ChatTurn.IdealMac`, `AdminToken.IdealUnder`). Secrets and texts are signed as what
`TextEncoder` makes of them, and a key is the 64-byte block HMAC uses. Round trips need only the opposite fact, that a
signature verifies for what it was made for.

## What the proofs found

* **A card does not always bind its statement.** A ticket is a MAC over UTF-8 bytes, and `TextEncoder` turns every lone
  surrogate into U+FFFD, so a ticket for `SELECT '\ud800'` is also accepted for `SELECT '\ud801'`, which no card
  showed (`Cards.AnotherStatementRuns`). What every run guarantees is a card with the same bytes
  (`ChatTurn.OnlyApprovedStatementsRun`); a live card binds its very statement exactly when that holds neither a lone
  surrogate nor U+FFFD (`ChatTurn.CardBinds`, `ChatTurn.ShownStatementsRun`).
* **A card whose statement was cut at a space cannot be approved with its own statement.** The statement a turn shows
  went through `capped` once; the operator's answer sends it through `capped` again, which trims it. When the cut at
  2,000 characters leaves white space at the end, the ticket minted for the first text is checked against the second and
  the answer counts for nothing. `ChatTurn.CardAnswered` gives the exact condition and `Cards.CutAtSpace` a statement,
  the turn that shows it and the refused answer.
* **An approved statement with a triple backtick is not resumed.** The text synthesised for it is cut at the backticks
  and the fragment is refused as malformed (`ToolRequest.ResumeExact`, both directions; `Cards.BackticksNotResumed`).
  Such statements do reach a card, when the model writes its backticks as escapes (`Cards.BacktickCard`).
* **A blank reply is not flushed.** The narrator is flushed when the untrimmed reply holds no fence *and* is not blank:
  of a reply of eight spaces the operator is shown two (`ChatTurn.FlushExactly`, `ChatTurn.BlankReplyHeldBack`).
* **A count key hides the texts of an array but not those of a `toJSON`.** Texts directly under such a key, and in arrays
  under it, are withheld at any depth (`Redaction.ForcedIsBlind`); an object that serialises itself as a text is only
  masked as text (`Redaction.CountFormShown`).
* **Chunk independence needs no hypothesis on the body.** The reader replaces `\r\n` in the whole buffer at every read,
  so a body with `\r\r\n` may be normalised differently under different cuts; the lines still carry the same payloads,
  because a payload is trimmed. `TokenStream.ReadTokenStream` is proved for every body and every cut.
* **Claims that are all undefined are fingerprinted apart from no claims.** `{}` is hashed for the first, the empty text
  for the second, although both say nothing (`Fingerprint.PreimageExact`, `Fingerprint.UndefinedClaimDiffers`).
* **The fingerprint is safe from the encoder's replacement character only because strings are quoted first.**
  `JSON.stringify` leaves no lone surrogate (`Utf8.QuoteWhole`), so the hashed bytes still tell claims apart
  (`Fingerprint.HashedBytesExact`).

## Model

| member | source | states |
|---|---|---|
| Sha256.Sha256 | shared/claims-fingerprint.ts:55-116 | for every byte string the in-place computation returns the digest FIPS 180-4 defines |
| RoundConstants.ConstantsAreCubeRoots | shared/claims-fingerprint.ts:42-50 | the i-th round constant is the first 32 bits of the fractional part of the cube root of the i-th prime |
| RoundConstants.InitialIsSquareRoots | shared/claims-fingerprint.ts:56 | the initial hash value is the same of the square roots of the first eight primes |
| RoundConstants.PrimesAreFirst | shared/claims-fingerprint.ts:42-50 | the primes meant are the first sixty-four, rising and without a gap |
| RoundConstants.RootBitsUnique | shared/claims-fingerprint.ts:42-56 | no other word has that property for its prime |
| Sha256.Pad | shared/claims-fingerprint.ts:57-65 | the padded buffer is the standard's padding, with the bit length as two big-endian words |
| Fips180.ZeroCountIsLeast | shared/claims-fingerprint.ts:57 | the buffer length computed is the shortest whole number of blocks with room for the marker and the length |
| Sha256.FillSchedule | shared/claims-fingerprint.ts:70-81 | the schedule array holds the standard's message schedule of its block |
| Sha256.RunRounds | shared/claims-fingerprint.ts:83-101 | sixty-four reassignments of the working variables are the standard's rounds |
| Sha256.CompressBlock | shared/claims-fingerprint.ts:69-106 | one pass of the outer loop turns the hash array into the standard's next hash value |
| Sha256.RotateRightWord | shared/claims-fingerprint.ts:52 | the signed number built from two shifts and an or is, modulo 2^32, the word rotated right |
| Sha256.Sigmas | shared/claims-fingerprint.ts:77-89 | the six mixed rotations and xors reduce to the standard's sigma functions |
| Sha256.ChooseIsCh | shared/claims-fingerprint.ts:87-90 | the signed choose and majority expressions reduce to Ch and Maj |
| Sha256.ExtendWordReduces | shared/claims-fingerprint.ts:80 | the sum of signed and unsigned doubles stays exact and `>>> 0` makes it addition modulo 2^32 |
| Sha256.Temp1Reduces | shared/claims-fingerprint.ts:88 | the five-term sum stays exact and reduces to T1 |
| Fingerprint.CanonicalUnambiguous | shared/claims-fingerprint.ts:16-30 | two values print alike exactly when they are equal up to key order and what JSON cannot spell |
| Fingerprint.PreimageExact | shared/claims-fingerprint.ts:36-40 | two fingerprints hash one text exactly when user and non-volatile claims agree, but for claims that are all undefined |
| Fingerprint.UndefinedClaimDiffers | shared/claims-fingerprint.ts:37-39 | the exception: one undefined claim and no claims are the same claims and hash apart |
| Fingerprint.PreimageWhole | shared/claims-fingerprint.ts:123-124 | the hashed text holds no lone surrogate, whatever ids and claims hold |
| Fingerprint.HashedBytesExact | shared/claims-fingerprint.ts:118-124 | the bytes hashed are equal exactly when user and stable claims are |
| Fingerprint.ClaimsFingerprint | shared/claims-fingerprint.ts:123-124 | the fingerprint is 22 characters: base64url of the first 16 bytes of SHA-256 of the UTF-8 text |
| Utf8.EncodeExact | shared/hmac-url.ts:126-143 | two texts have the same bytes exactly when they have the same code points, lone surrogates counting as U+FFFD |
| Utf8.BytesDetermineText | shared/hmac-url.ts:126-143 | bytes determine a text exactly when it holds neither a lone surrogate nor U+FFFD |
| Utf8.EncodeInjective | shared/claims-fingerprint.ts:124 | texts without lone surrogates have the same bytes exactly when they are equal |
| Utf8.PointsEncoded | shared/claims-fingerprint.ts:124 | the code points of a text are those its units encode in UTF-16, U+FFFD for a lone surrogate |
| Utf8.EncodedPoints | shared/claims-fingerprint.ts:124 | any scalar values are the code points of the text that encodes them |
| JsText.LessAtFirst | shared/claims-fingerprint.ts:24 | key order: at the first unit where they differ the lesser key has the lesser unit or has ended |
| Utf8.QuoteWhole | shared/claims-fingerprint.ts:24 | a quoted string holds no lone surrogate |
| Json.QuoteSelfDelimiting | shared/ai-chat.ts:214-219 | a JSON-quoted string followed by anything determines both |
| Json.ParsePrint | shared/ai-chat.ts:627 | parsing a printed JSON value gives the value back |
| Base64.ToBase64Url | shared/base64.ts:68-97 | the one-pass encoder spells the six-bit digits of its bytes, unpadded |
| Base64.ToBase64 | shared/base64.ts:17-26 | the chunked encoder gives padded base64 and its `btoa` never throws |
| Base64.FromBase64 | shared/base64.ts:36-45 | the copied array is what the forgiving decoder yields |
| Base64.RoundTrip | shared/base64.ts:100-105 | decoding undoes both encoders on every byte string |
| Base64.RemapAgrees | shared/base64.ts:53-66 | the one-pass output is the chunked output with two characters swapped and the padding gone |
| Base64.EncodeShape | shared/base64.ts:68-97 | the ceiling of 4n/3 characters, all letters, digits, `-` or `_` |
| Base64.ReencodeExact | shared/base64.ts:100-105 | a text re-encodes to itself exactly when no stray bit is set; it fails to decode exactly at one character over |
| Hmac.SignedVerifies | shared/hmac-url.ts:126-143 | a signature as text verifies for a message exactly when its bytes verify for the message's bytes |
| Approval.PayloadInjective | shared/ai-chat.ts:214-219 | a ticket payload determines dot-free expiry, shard key and statement, dots in the shard key included |
| Approval.PayloadBytes | shared/ai-chat.ts:214-219 | two payloads have the same bytes exactly when shard keys are equal and expiries and statements have the same bytes |
| Approval.VerifiedMeansMinted | shared/ai-chat.ts:235-283 | an accepted answer matches the ticket's shard and the bytes of its statement, and the ticket is unexpired |
| Narrator.VisibleBeforeFence | shared/ai-chat.ts:558-599 | nothing is ever shown at or past a fence that only later text completes |
| Narrator.VisibleGrows | shared/ai-chat.ts:594-597 | more text never takes back what was shown |
| Narrator.StreamNarrator.Token | shared/ai-chat.ts:591-597 | after a token exactly the visible prefix has been emitted, each character once and in order |
| Narrator.StreamNarrator.Flush | shared/ai-chat.ts:588-590 | after a flush everything seen has been emitted |
| Narrator.Narrate | shared/ai-chat.ts:575-599 | for every tokenisation the operator sees what precedes the reply's first fence; all of a reply without one; and of a blank reply all but the six characters held back |
| TokenStream.ReadTokenStream | shared/ai-prompt.ts:240-307 | for every body and every cut into reads, the tokens, the text and what the operator sees depend on the body alone; a body written as an event stream of non-empty tokens, closed or not, with either line end, is read as exactly those tokens; an aborted read emits a prefix |
| TokenStream.StreamTokens | shared/ai-prompt.ts:213-214 | reading undoes writing: the tokens of an event stream are the ones it was written from, in order |
| TokenStream.SpokenLine | shared/ai-prompt.ts:250-272 | a data line with an object that has a string under `response` says that string, whatever else the object holds |
| TokenStream.SilentLine | shared/ai-prompt.ts:250-272 | a line without `data:`, with nothing or the closing mark, with no JSON, or with no string to say, says nothing |
| Json.PrintNoControl | shared/ai-prompt.ts:249 | printed JSON is one line: it holds no control character |
| TokenStream.Drain | shared/ai-prompt.ts:245-278 | the frames drained and the rest carry the same tokens as the buffer |
| TokenStream.TokensNormalised | shared/ai-prompt.ts:289-292 | normalising line ends early or late does not change the tokens |
| Prompt.CappedHarmless | shared/ai-prompt.ts:166-178 | neither marker survives `capped`, even where markers overlap or replacements abut, and the cap holds |
| Prompt.CappedAgain | shared/ai-prompt.ts:177-178 | capping a capped text only trims it, and leaves it alone exactly when it is trimmed |
| Prompt.CappedEnds | shared/ai-prompt.ts:177-178 | what `capped` returns starts with no white space, and ends with none unless it was cut at the cap |
| Prompt.UserPromptFenced | shared/ai-chat.ts:808-828 | the markers of an opening prompt are one or two BEGIN-END pairs for all names, excerpts, turns and questions |
| Prompt.UserPromptEncloses | shared/ai-chat.ts:808-828 | the question, every turn and every excerpt of an opening prompt stand between a BEGIN and its END, with whole pairs before |
| Openings.PromptGrounds | shared/ai-prompt.ts:195-201 | an opening prompt begins with a heading, one line for each of the first 40 tables with the names of its first 25 columns, and a blank line |
| Openings.NameAsIs | shared/ai-prompt.ts:192 | a name of at most 120 characters without white space is written as it is |
| Openings.ExcerptsKept | shared/ai-chat.ts:808-812 | the excerpts quoted are the first four that are not blank once capped, in order |
| Openings.EntryLine | shared/ai-chat.ts:428-440 | which transcript entries are turns, and that an assistant's line is labelled as one and a user's as the developer's |
| Prompt.ObservedFenced | shared/ai-chat.ts:747 | a tool result adds exactly one more pair |
| ToolRequest.ValidatedCall | shared/ai-chat.ts:623-666 | a request that validates names its tool, which is within the level; its statement is the one requested, capped, marker-free, non-empty and accepted by the gate |
| ToolRequest.CallExactly | shared/ai-chat.ts:623-666 | exactly which requests validate to which call |
| ToolRequest.BelowLevel | shared/ai-chat.ts:649-651 | a request for a tool above the level is refused naming the level the tool needs |
| ToolRequest.LevelNamed | shared/ai-chat.ts:649-651 | and only such a refusal names a level |
| ToolRequest.LevelsAdmit | shared/ai-chat.ts:65-126 | which tools each level admits |
| ToolRequest.BlockOf | shared/ai-chat.ts:514-546 | a reply with a tool fence is text, its first fence, the block, and perhaps the first code fence after it and more text |
| ToolRequest.BlockRead | shared/ai-chat.ts:514-546 | however a reply is so divided, the block trimmed is the request and the text around it trimmed is what is left |
| ToolRequest.RequestExactly | shared/ai-chat.ts:937-949 | a trimmed reply asks for a tool exactly when its untrimmed text holds a fence |
| ChatTurn.FlushExactly | shared/ai-chat.ts:905-953 | every round begun has its narration, one for each prompt and one for a resumed round; the narrator is flushed exactly when the round was inferred and its untrimmed reply is not blank and holds no fence, and shows exactly what that allows |
| ChatTurn.BlankReplyHeldBack | shared/ai-chat.ts:943-953 | a reply of eight spaces holds no fence, ends the turn as empty and is not flushed: two characters are shown |
| ToolRequest.ResumeExact | shared/ai-chat.ts:914-923 | the statement comes back from the synthesised request exactly at the top level, gate-accepted, fixed under `capped` and without a triple backtick |
| Transcript.BudgetTranscript | shared/ai-chat.ts:453-493 | the longest suffix of the valid turns within 12 turns and 8,000 characters, never fewer than four if there are four; truncated exactly when shorter than what was sent |
| Transcript.Newest | shared/ai-chat.ts:456-467 | the first loop keeps the newest valid turns and stops at the turn cap |
| Transcript.WithinChars | shared/ai-chat.ts:472-490 | the second loop keeps the longest suffix within the character budget |
| FitToBudget.FitToBudget | shared/ai-chat.ts:687-744 | at most 2,000 characters; whole if it fits, else with the fewest entries dropped that fits, and then JSON that reads back as the result with each list cut to its first entries and every other field as it was, followed by the note; else the capped text |
| FitToBudget.RenderReads | shared/ai-chat.ts:708-726 | whatever was dropped, an object and a bare list both render as JSON that reads back so |
| FitToBudget.DroppedLevel | shared/ai-chat.ts:730-741 | water-filling: lists keep their names and items, and a trimmed list is never more than one below another, ties lowered in order |
| FitToBudget.NotesConserve | shared/ai-chat.ts:717-725 | what is shown of a list and what its note reports make up the list, and only trimmed lists have a note |
| ChatTurn.GenerateChat | shared/ai-chat.ts:842-1068 | the loop computes the state machine's outcome, whose reply, card, reports, calls and prompts the next rows pin, and its trailing return is unreachable |
| ChatTurn.TurnAccounted | shared/ai-chat.ts:905-1068 | at most four inferences (three when resumed) and three permitted calls; reports are the emitted events; a final reply is never empty and partial exactly when it still asked; a card's ticket is for its statement |
| Replies.TurnAnswers | shared/ai-chat.ts:937-1011 | the reply told by what the last round heard: all of it, trimmed, when it holds no fence; else what stands around its block, or the limit's text when a final reply has nothing else; a card is for the statement its block asked for; truncated is the budget's flag |
| Replies.ReportsHonest | shared/ai-chat.ts:975-1050 | what the reports say was run is what was run, in order, however the turn ends |
| Replies.TurnReports | shared/ai-chat.ts:970-1043 | report k is of round k's request: its tool and statement, or what was wrong with it |
| ChatTurn.StepAccounted | shared/ai-chat.ts:905-1061 | at the head of round r there are exactly r reports, equal to the emitted events in order, and as many inferences as rounds that were not resumed |
| ChatTurn.PromptsTold | shared/ai-chat.ts:898-1061 | every prompt of a turn is its opening prompt followed by exactly what each earlier round told: a refusal, or a result cut to the budget |
| ChatTurn.PromptsFenced | shared/ai-chat.ts:898-1061 | in every prompt of every round BEGIN and END alternate: one pair for the transcript, one for excerpts if any, one for each earlier round |
| ChatTurn.PromptsEnclose | shared/ai-chat.ts:747-828 | in every prompt the question, each turn and excerpt kept and each earlier tool result stands between a BEGIN and the END that closes it |
| ChatTurn.OnlyApprovedStatementsRun | shared/ai-chat.ts:975-1050 | over any run of turns, a statement forwarded to a runner has the bytes of one shown on an earlier card of that shard and key, unexpired, answered with allow and accepted by the gate |
| ChatTurn.ShownStatementsRun | shared/ai-chat.ts:975-1050 | it is exactly the statement of such a card when it holds neither a lone surrogate nor U+FFFD |
| ChatTurn.CardBinds | shared/ai-chat.ts:235-283 | a live card's ticket runs no other statement exactly when its statement holds neither a lone surrogate nor U+FFFD, for every card, cut at a space or not |
| ChatTurn.AnswerExact | shared/ai-chat.ts:235-283 | under an ideal MAC a ticket answered with any statement is accepted exactly while it lives and when the capped statement has the bytes of its own |
| Cards.AnotherStatementRuns | shared/ai-chat.ts:222-283 | a card for `SELECT '\ud800'` answered with `SELECT '\ud801'` forwards the second |
| ChatTurn.ResumedTurnRuns | shared/ai-chat.ts:914-923 | a resumable turn's first call is the approved statement, before any inference |
| ChatTurn.MintedTicketAccepted | shared/ai-chat.ts:222-283 | a ticket verifies for its statement exactly until it expires, for statements `capped` leaves alone |
| ChatTurn.CardAnswered | shared/ai-chat.ts:265-283 | a returned card answered with its own fields is accepted exactly while it lives and when its statement has no white space at its ends, and counts for nothing otherwise |
| ChatTurn.ApprovalCompletes | shared/ai-chat.ts:914-1050 | a card allowed in time makes the next turn forward exactly its statement first, for a statement without white space at its ends or a triple backtick |
| Cards.CutAtSpace | shared/ai-chat.ts:657 | a model's request for a SELECT of 2,001 characters gets a card cut at a space, and no answer with that card's fields is accepted |
| Cards.AskingGetsCard | shared/ai-chat.ts:937-1011 | a model can ask for any statement, backticks and surrogates included, and the turn returns a card for it, capped, if the gate accepts that |
| Cards.BacktickCard | shared/ai-chat.ts:937-1011 | a statement with a triple backtick is shown on a card |
| Cards.BackticksNotResumed | shared/ai-chat.ts:914-985 | the round that should resume it runs nothing and reports a malformed request |
| StartupGraph.Roots | scripts/check-worker-startup.js:505-513 | the roots are exactly the inputs nothing imports, each once |
| StartupGraph.Walk | scripts/check-worker-startup.js:519-540 | a module is seen exactly when static imports reach it from a root through modules that are not leaves, on any graph |
| StartupGraph.ChainOf | scripts/check-worker-startup.js:542-550 | for a seen module, a real chain from a root that no chain undercuts |
| StartupGraph.MoreLeavesFewerModules | scripts/check-worker-startup.js:579-584 | a walk with more leaves sees a subset |
| BulkDrain.DrainBulkOp | shared/bulk-drain.ts:96-119 | the loop is the recursive drain: same rows counted, same outcome, cursor parked only at a cap |
| BulkDrain.DrainReports | shared/bulk-drain.ts:70-119 | the count reported is the number of rows written; completed comes without a cursor; a capped ordered drain made all its trips and parks the last id it wrote |
| BulkDrain.ChainReports | shared/bulk-drain.ts:43-61 | the same over a chain of drains |
| BulkDrain.PageSweeps | shared/bulk-drain.ts:23-34 | one ordered page writes rising ids above its cursor and skips no row below its last id |
| BulkDrain.DrainSweeps | shared/bulk-drain.ts:96-119 | one capped ordered drain under interference writes rising ids and, up to where it parks, misses no row that matched until its turn came |
| BulkDrain.ExactlyOnce | shared/bulk-drain.ts:43-61 | a chain of capped drains reopened at the parked cursor and ending completed writes every row above the opening cursor that matched until its turn came once, and none twice, whether or not the row still matches afterwards |
| BulkDrain.ThroughoutOnce | shared/bulk-drain.ts:43-61 | in particular every such row that matched throughout is written once |
| BulkDrain.DeleteConserves | shared/bulk-drain.ts:54-58 | without interference rows written and rows left add up, and completed means none is left |
| AdminToken.ParseExact | shared/admin-token.ts:56-66 | parsing is the exact inverse of spelling a token from a valid name and secret |
| AdminToken.GeneratedParses | shared/admin-token.ts:75-79 | a generated token parses back to its name and secret exactly for the names a token may have |
| AdminToken.SignalRoundTrip | shared/admin-token.ts:88-126 | a minted signal verifies to its name exactly while the clock is below floor(min(mint + 60,000, notAfter)) and the name is valid |
| AdminToken.SignalMeansMinted | shared/admin-token.ts:99-126 | with an ideal MAC a verified signal carries the name and the expiry of one that was minted, and that expiry is ahead, whatever else the secret signs |
| AdminToken.SocketMeansMinted | shared/ws-admin-token.ts:73-105 | a verified socket token carries the expiry of one that was minted, and that expiry is ahead; bindings, signals and tickets under the same secret do not pass for one |
| AdminToken.TicketMeansMinted | shared/ai-chat.ts:235-257 | even under a secret shared with the other kinds an accepted answer rests on a ticket for its shard and the bytes of its statement |
| AdminToken.KindsAreDisjoint | shared/admin-token.ts:15-22 | no text is two of a bearer token, a signal and a socket token |
| KeyWords.ClassifyWords | shared/credential-redaction.ts:219-245 | the last sensitive word decides: a count, a value, a scalar or neither |
| KeyWords.OneMoreWord | shared/credential-redaction.ts:102-136 | after a credential a value word keeps it secret, a measure makes it a count, any other word names something about it |
| Redaction.Walker.Walk | shared/credential-redaction.ts:505-547 | the walk over any graph ends, leaves the seen set as it found it, and carries out the plan of its value |
| Redaction.Walker.MaskText | shared/credential-redaction.ts:447-462 | one text is masked against the budget and shortened |
| Redaction.MaskCredentials | shared/credential-redaction.ts:505-568 | the result is the budget-free plan with the scanned texts replaced in visit order, and each value comes out as its key allows: a credential withheld, a scalar credential withheld unless it is an object, texts under a count withheld, numbers kept, other texts masked |
| Redaction.FilledShows | shared/credential-redaction.ts:505-547 | that holds of the walk at any depth, with any masked texts |
| Redaction.ForcedIsBlind | shared/credential-redaction.ts:506-545 | where texts are credentials none is shown, however deep the arrays |
| Redaction.CountFormShown | shared/credential-redaction.ts:518-545 | an object's `toJSON` under a count key is not treated so: its text is masked as any other |
| Redaction.TextMasked | shared/credential-redaction.ts:447-462 | a text within both limits comes out as it is masked, a longer one as its first 4,224 characters masked, cut and marked |
| Redaction.BudgetExact | shared/credential-redaction.ts:447-462 | a text is masked exactly while fewer characters than the budget came before it, and is the marker from then on |
| Redaction.ExaminedBound | shared/credential-redaction.ts:154-168 | at most 20,607 characters are examined for one value |
| Redaction.MaskedText | shared/credential-redaction.ts:447-462 | no processed text is longer than 4,096 characters and the suffix |
| Redaction.NothingPastScan | shared/credential-redaction.ts:447-462 | nothing past the first 4,224 characters of a longer text is looked at or shown, and the result says it was cut |
| Redaction.CutsAreCycles | shared/credential-redaction.ts:514-516 | an object is given up on exactly when it is inside itself along the real chain to it or 32 deep |
| Redaction.SharedIsWalked | shared/credential-redaction.ts:514-545 | in a graph without cycles remembering objects changes nothing: a shared object is walked each time |
| Redaction.SecretsNeverShown | shared/credential-redaction.ts:531-537 | under a key classified secret only booleans, null, undefined and the placeholder come out |
| Cron.ValidatorIsGrammar | shared/cron-expression.ts:98-163 | the validator accepts exactly the written forms of a five-field schedule of values: numbers of one or two figures, names in any case, names only for weekdays, rising ranges, steps within the field |
| Cron.AtomPrinted | shared/cron-expression.ts:78-93 | every written value is read back as that value and holds no separator |
| Cron.AtomRead | shared/cron-expression.ts:78-93 | every token given a value in the range is such a value written |
| Cron.FieldsDenote | shared/cron-expression.ts:58-66 | each accepted field stands for at least one value and for none outside its range |

## Left out

- Text: strings are sequences of 16-bit units. A number in JSON is its text, so conversion to a double is not modelled; a BigInt, which `JSON.stringify` refuses with an exception, is not a value of the model.
- Sha256.Sha256: a message of 2^61 bytes or more, which no engine can hold, has its length taken modulo 2^64 in model and standard function alike.
- ChatTurn.GenerateChat: asynchrony is not modelled. A turn is sequential, the abort signal is an arbitrary answer at each of its three checks, and `runPrompt`'s race, its retries and its timers are inside the arbitrary model.
- ChatTurn.GenerateChat: what each round's narrator heard, showed and flushed is part of the outcome, but its `delta` events are not interleaved with the tool events of the turn, and an `emit` callback is taken to be present.
- Approval.VerifiedMeansMinted: which key a deployment resolves to (`approvalSecret`) is a parameter, so a lost in-memory key is a changed parameter.
- TokenStream.ReadTokenStream: `TextDecoder` is outside the model, so reads are texts and not bytes.
- FitToBudget.FitToBudget: results are JSON values with distinct keys; `toJSON`, holes and values JSON skips inside a result are not modelled.
- BulkDrain.ExactlyOnce: a row that vanishes between the scan and its own write is skipped by the writer and still counted by the page, as in the shard; writing means being handed to the writer.
- BulkDrain.DrainBulkOp: a query that throws produces no result; that path is not modelled.
- StartupGraph.Walk: metafile lookups are own keys only, so a path that names a property every object inherits is not covered.
- Base64.FromBase64: `atob` is the WHATWG Infra standard's decoder written out, since the host provides it.
- AdminToken.SignalRoundTrip: times and expiries are exact reals, so rounding above 2^53 is not modelled; the header form of a token, a regular expression, and the hex digest of a secret are left out.
- KeyWords.ClassifyWords: starts from the words of a key; cutting a key into words is done by regular expressions.
- Redaction.MaskCredentials: `maskText` with its regular expressions, among them `maskAssignments` and `stripUrl`, is an arbitrary text function, and holes in arrays are not modelled.
- Cron.ValidatorIsGrammar: `toLowerCase` is modelled on ASCII letters, since no other character lowers to a letter of a month or weekday name; names that every object inherits (`constructor`, `__proto__`) have a value that is no number and are refused in code and model.
- Cron.FieldsDenote: what an accepted field means is the usual reading of cron, which the source does not define.
- Not modelled because nothing hard rests on it: small helpers of `shared/`, release and lint scripts, the rest of the startup check (bytes, re-export detection), chat system prompt wording.
