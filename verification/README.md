# Prompt Match Party — a Dafny model of its game and server logic

Prompt Match Party is a browser party game. A round shows a target image
derived from a secret prompt. Each player writes a prompt, every prompt gets
a placeholder image seeded by a hash of its text, the players vote, and the
entry with the most votes wins. A small Node server serves the page's files
and offers an endpoint that forwards a prompt to an image-generation
service.

This project models the deterministic logic of both halves and proves what
it guarantees:

- `text.dfy` (module `Text`): JavaScript strings as UTF-16 code units, and
  `String.prototype.trim` over the ECMAScript whitespace set.
- `decimal.dfy` (module `Decimal`): the decimal rendering of a non-negative
  integer, as a template literal prints it, and its inverse.
- `prompt_hash.dfy` (module `PromptHash`): `hashCode`, a Java-style
  `h * 31 + c` fold with int32 wrap-around followed by `Math.abs`, and
  `imageFromPrompt`.
- `entries.dfy` (module `Entries`): the `{ player, prompt, imageUrl, votes }`
  record of one submission.
- `voting.dfy` (module `Voting`): the options each voter is offered, the
  vote gate, and the tally.
- `ranking.dfy` (module `Ranking`): the stable descending sort by votes and
  the winner `ranked[0]`, with an independent reference for the winner.
- `game.dfy` (module `Game`): the page state (`round`, `secretPrompt`,
  `generatedEntries`, the number of prompt boxes) and the four actions
  start, new round, submit and vote, each a pure function from a state to
  a new state plus the alert shown.
- `static_files.dfy` (module `StaticFiles`): the default document, the `..`
  stripping of request paths, and the content-type table.
- `image_api.dfy` (module `ImageApi`): the classification of the upstream
  image service's reply and the status codes of `POST /api/generate-image`.
- `wrappers.dfy` (module `Wrappers`): `Option`.

Integers are unbounded in Dafny. The int32 arithmetic of the hash is
written out: `ToInt32` reduces modulo 2^32 into [-2^31, 2^31), and `<< 5`
is `ToInt32(h * 32)`. `Math.abs` acts on a JavaScript number, not on an
int32, so `hashCode` can return 2^31, one more than the largest int32;
`HashCodeReachesTwoTo31` exhibits a seven-code-unit string that does. The
seed therefore needs 32 bits as an unsigned number, and the model keeps it
an unbounded `nat`.

`Array.prototype.sort` is stable since ECMAScript 2019. The ranking is
modelled as a stable insertion sort, and `StableRankingUnique` shows that
any stable descending sort gives the same sequence. So the model's ranking
is the one the page computes, whatever algorithm the engine uses.

## Model

| member | source | states |
|---|---|---|
| `Text.TrimEmptyIffAllWhitespace` | app.js:152-155 | `Trim`, the `trim()` of a prompt, is empty exactly when every code unit of the raw text is ECMAScript whitespace or a line terminator |
| `Text.TrimIsSlice` | app.js:152 | `trim` returns a contiguous slice of its input, and only whitespace is removed on either side |
| `Text.TrimIdempotent` | app.js:152 | trimming a trimmed prompt changes nothing |
| `Decimal.ValueOfRender` | app.js:45 | reading back the decimal numeral of the seed gives the seed |
| `Decimal.RenderInjective` | app.js:45 | two seeds print the same numeral exactly when they are equal |
| `PromptHash.HashStepIsTimes31` | app.js:37-38 | `(h << 5) - h + c` followed by the bitwise-or with 0 equals `h * 31 + c` reduced to int32, for any int32 `h` |
| `PromptHash.HashCodeLoop` | app.js:34-41 | the loop keeps `hash` an int32 equal to the fold over the code units read so far, and returns a value in [0, 2^31] equal to `hashCode` |
| `PromptHash.HashCode` | app.js:40 | the result is the absolute value of the int32 fold, lies in [0, 2^31], and is 0 for the empty string |
| `PromptHash.HashCodeReachesTwoTo31` | app.js:40 | the code units [2, 13, 0, 9, 30, 12, 2] fold to -2^31, so `Math.abs` returns 2^31, one more than the int32 maximum |
| `PromptHash.SeedOfImageFromPrompt` | app.js:43-46 | `ImageFromPrompt` carries the whole hash: parsing the seed out of the placeholder URL for `p` gives `hashCode(p)` |
| `PromptHash.SameImageIffSameHash` | app.js:43-46 | two prompts get the same placeholder URL exactly when their hashes are equal |
| `Game.PlayerCountAcceptedIff` | app.js:127-131 | the start guard accepts a count exactly when it is a finite number from 2 to 8; NaN and the infinities are refused |
| `Game.PlayerSlots` | app.js:50 | the number of prompt boxes is the largest whole number not above the count, and 0 below 1 |
| `Game.AcceptedCountSlots` | app.js:127-133 | an accepted count lays out between 2 and 8 prompt boxes |
| `Game.InitialWellFormed` | app.js:30-32 | the state at page load satisfies the round invariant |
| `Game.CreateRound` | app.js:71-78 | a new round keeps the round number and box count, picks one of the six seed prompts, shows that prompt's placeholder image and discards all entries |
| `Game.Start` | app.js:126-137 | no alert exactly when the count is a finite number in [2, 8]; on the alert nothing changes; otherwise the box count is `PlayerSlots(count)` (between 2 and 8), there are no entries, the secret is the chosen seed prompt with its placeholder image as target, and the invariant is kept |
| `Game.NewRound` | app.js:139-141 | the round number goes up by exactly one, entries are reset to empty, the secret is the chosen seed with its placeholder image as target, and the invariant is kept |
| `Game.TrimmedPrompts` | app.js:150-153 | one trimmed prompt per box, in box order, empty exactly when the box holds only whitespace |
| `Game.BlankPromptIffWhitespace` | app.js:155-158 | some trimmed prompt is empty exactly when some box holds only whitespace |
| `Game.SubmittedEntries` | app.js:160-164 | entry i belongs to player i + 1, holds the trimmed prompt, that prompt's placeholder URL and no votes |
| `Game.Submit` | app.js:147-170 | the submission is refused with an alert, and nothing changes, exactly when some box holds only whitespace; otherwise the entries are rebuilt as above and nothing else changes |
| `Voting.SelectedNumber` | app.js:181 | a select still on its placeholder reads as a number below 1; an option reads as its player number |
| `Voting.VoteOptions` | app.js:110-111 | a voter is offered every other player and never their own number |
| `Voting.VoteOptionsCount` | app.js:110-111 | with distinct players, a voter is offered exactly n - 1 options |
| `Voting.CollectVotes` | app.js:177-183 | one vote per entry, in entry order, from that entry's player, naming the number read from its select |
| `Voting.CountForIsMultiplicity` | app.js:191 | the recursive vote count for a player equals how often that player occurs among all choices |
| `Voting.TallyCountsVoters` | app.js:190-192 | after `Tally` each entry's count is the number of voters who chose its player, and nothing else about the entry changes |
| `Voting.TallyConservesVotes` | app.js:190-192 | with distinct players the counts add up to at most the number of votes, and to exactly that number when every vote names a listed player |
| `Voting.OfferedVotesAreCounted` | app.js:110-192 | votes taken from the offered options pass the gate, are never self-votes, and are all counted |
| `Game.CastVotes` | app.js:172-195 | nothing happens without entries; the vote is refused with the "Every player must cast a vote." alert, changing nothing, exactly when some select reads below 1; otherwise the entries hold the tally, the result is their ranking, and the invariant is kept |
| `Game.TallyKeepsWellFormed` | app.js:190-192 | tallying keeps every submitted entry a submitted entry |
| `Game.RankTallied` | app.js:194-195 | the scoreboard is a stable, vote-sorted permutation of the entries; the winner heads it, has the most votes, and is the lowest-numbered player among those tied |
| `Game.WinnerOfNumberedRanking` | app.js:194-195 | the head of any stable ranking has the maximum votes and, with players numbered 1..n, the lowest number among the tied |
| `Game.OfferedVotesTallied` | app.js:172-192 | in a submitted round, a vote cast from the offered options is accepted and the counts add up to the number of players |
| `Ranking.InsertSortedPermutation` | app.js:194 | inserting one entry into a vote-sorted sequence keeps it sorted and adds exactly that entry |
| `Ranking.RankSortedPermutation` | app.js:194 | `Rank`, the ranking, is non-increasing in votes and a permutation of the entries |
| `Ranking.RankIsStable` | app.js:194 | for every vote count, the entries with that count keep their submission order in the ranking |
| `Ranking.StableRankingUnique` | app.js:194 | two stable descending sorts of the same entries are equal |
| `Ranking.FirstMax` | app.js:195 | a left-to-right scan finds the first position holding the largest vote count |
| `Ranking.RankHeadIsFirstMax` | app.js:194-195 | `ranked[0]` is the first entry, in submission order, among those with the most votes |
| `Ranking.StableRankingHead` | app.js:194-195 | any stable descending sort starts with the entry the reference scan finds |
| `StaticFiles.SafePathProperties` | server.mjs:89-90 | `/` is served as `/index.html`, any other path only has `..` stripped, and the served path never contains `..` |
| `StaticFiles.StripLeavesNoDotDot` | server.mjs:90 | after `StripDotDot`, the `..` replacement, no `..` is left, for any input path |
| `StaticFiles.StripIsIdentityIffNoDotDot` | server.mjs:90 | the replacement leaves a path unchanged exactly when the path has no `..` |
| `StaticFiles.StripIdempotent` | server.mjs:90 | applying the replacement a second time changes nothing |
| `StaticFiles.StripKeepsNonDots` | server.mjs:90 | every character other than `.` survives, in order |
| `StaticFiles.StripIsSubsequence` | server.mjs:90 | the stripped path is a subsequence of the request path |
| `StaticFiles.StripDeletesDotPairs` | server.mjs:90 | only dots are deleted, and an even number of characters disappear |
| `StaticFiles.ContentTypeTable` | server.mjs:96 | `ContentType` is the table entry for `.html`, `.js`, `.css` and `.json` and `application/octet-stream` for every other extension |
| `ImageApi.ModelName` | server.mjs:28 | the model sent upstream is the configured one whenever it is set and non-empty, and `gpt-image-1` otherwise |
| `ImageApi.GenerateImage` | server.mjs:22-58 | an error reported by `generateImage` always has a non-empty message and an image URL is never empty, so the handler's truthiness tests see them |
| `ImageApi.GenerateImageOutcomes` | server.mjs:22-58 | an image comes back exactly when a key is set and the upstream answered ok with a URL or base64 data; the call rejects exactly when a key is set and the upstream gave no JSON; without a key the outcome is the missing-key error whatever the upstream does |
| `ImageApi.UpstreamErrorReported` | server.mjs:44-46 | a non-ok reply reports the upstream message when there is one and `OpenAI image generation failed` otherwise |
| `ImageApi.ImageUrlChoice` | server.mjs:44-57 | once the reply is ok its error message is ignored: a URL wins over base64 data, base64 alone becomes a PNG data URL from which the data can be read back, and a reply with neither gives `OpenAI did not return an image URL or base64 image` |
| `ImageApi.UsablePromptIsTrimmed` | server.mjs:70-72 | the usable prompt is the body's string prompt after `trim()`, and it is non-empty; there is none exactly when the body is malformed or null, lacks a string prompt, or its prompt is only whitespace |
| `ImageApi.HandlerOutcomes` | server.mjs:68-85 | `HandleGenerateImage` answers 200 with the URL exactly when an image was made for a usable prompt, 502 with the message exactly when generation reported an error, 400 otherwise; a 400 says `Prompt is required` for a parsed body without a usable prompt and `Invalid JSON body` for a malformed or `null` body or a rejected upstream call; without a usable prompt nothing is sent upstream and the answer does not depend on the key or the upstream, and whenever no request is sent the answer does not depend on the upstream |
| `ImageApi.OutgoingRequestContents` | server.mjs:22-41 | a request goes upstream exactly when the body has a non-blank string prompt and a key is set; it carries the configured model or `gpt-image-1`, the trimmed prompt and the size `1024x1024` |
| `ImageApi.UpstreamFailureReadsAsInvalidJson` | server.mjs:76-83 | the valid body `{"prompt":"cat"}` with a key set and a network failure upstream is answered 400 `Invalid JSON body` |
| `ImageApi.CorrectedBlamesClientOnlyForBadPrompts` | server.mjs:68-85 | in the corrected handler a 400 means exactly that the body has no usable prompt, and a rejected upstream call for a usable prompt is answered 502 `OpenAI image generation failed` where the handler as written answers 400 `Invalid JSON body`; the two differ only when the upstream call rejects |

## Left out

- DOM rendering, `innerHTML` templates, `alert`, event wiring and class toggles: the model returns the alert text and the new state instead.
- `Math.random`: the seed index of `createRound` is a parameter of `CreateRound`, `Start` and `NewRound`, restricted to the six seed positions.
- The scoreboard, gallery and winner texts (app.js:80-91, 197-204): they only print values the model computes.
- `Number(select.value)`: a select holds either its placeholder (`""`, which converts to 0) or an option whose value is a decimal player number, so a vote can never be NaN there. `Voting.SelectedNumber` reads an `Option<nat>` and does not model the NaN test of the gate.
- `Number(playerCountInput.value)`: the conversion from text is not modelled; `Start` takes the resulting JavaScript number (NaN, an infinity or a finite real).
- `fetch`, `readFile`, `createServer`, request streaming, `JSON.parse`, `JSON.stringify`, `process.env`, `path.join`, `extname` and `fileURLToPath` are I/O or library calls. The model takes the parsed body, the API key, the upstream reply and the file extension as inputs. A missing file (404) is left out with `readFile`.
- `ImageApi.JsonBody`: a parsed body is reduced to malformed, `null`, or a value with an optional string `prompt`. Any other `prompt` value (a number, an object) is treated like a missing one, as `typeof parsed.prompt === "string"` does.
- `ImageApi.Upstream`: `error.message`, `data[0].url` and `data[0].b64_json` are optional strings. Non-string truthy values in those fields are not modelled.
- `StaticFiles.SafePathProperties` does not claim that stripping `..` prevents directory traversal. That depends on URL decoding and `path.join` normalisation, which are not part of this model.
- The page never calls `/api/generate-image`: its images are the placeholder URLs it computes itself, and the server never substitutes a placeholder when generation fails. The model keeps the two halves separate, as the code does.

## Findings

| source | as written | input that shows it | evidently intended | confidence | as-written member | corrected member |
|---|---|---|---|---|---|---|
| server.mjs:76-83 | a rejection of `generateImage` (a network failure, or an upstream body that is not JSON) falls into the `catch` meant for `JSON.parse` and is answered 400 `Invalid JSON body` | body `{"prompt":"cat"}`, API key set, the upstream unreachable | an upstream failure is a gateway error (502); 400 is kept for bodies without a usable prompt | medium, not executed | `ImageApi.UpstreamFailureReadsAsInvalidJson` (about `ImageApi.HandleGenerateImage`) | `ImageApi.CorrectedBlamesClientOnlyForBadPrompts` (about `ImageApi.HandleGenerateImageCorrected`) |
