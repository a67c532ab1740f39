# E-voting ballot box, modelled in Dafny

The repository holds two Flask versions of the same in-memory ballot box.
This project models the logic inside their request handlers: the
sequential state machine that admits or rejects a ballot, and the tally
that counts ballots. Each version gets its own module, and the two keep
their differences.

- `EVoting2` (evoting2.py). The global dict `votes` is keyed by voter ID.
  A submission needs seven fields. The voter must match a roll row on full
  name, voter ID, card number and email. A voter ID that is already a key
  is turned away. An admitted entry is stored as it was sent, and its
  signature is not checked at that point. The dict is modelled as its keys
  in insertion order (`order`) plus the key-to-entry `map`, because Python
  iterates a dict in insertion order. The tally rebuilds the colon-joined
  message of each entry and checks its signature. Entries that fail are
  skipped, and the rest are counted per candidate.
- `EVoting` (evoting.py). The global list `votes` and the set
  `used_voter_hashes`. The duplicate check uses a hash the client sends
  (`voter_id_hashed`). A request without that field is checked under
  Python's `None`, modelled as `None`, and `None` itself becomes a used
  hash. The claimed hash is marked as used before the signature is checked.
  The signed message is the compact JSON `{"voter_hash":H,"candidate":C}`,
  where H is the SHA-256 hex of the decoded public key. The tally counts
  every stored vote with no further check. `base64_decode_safe` is modelled
  too, though no handler calls it.
- `Common`. `collections.Counter` over a sequence and the sum of its
  counts. It also holds the library calls the handlers make, bundled in the
  datatype `Crypto` as total functions given as parameters: `b64decode`
  (None where it raises), UTF-8 `encode`, SHA-256 hex and Ed25519
  verification. Verification has three outcomes: success,
  `BadSignatureError`, and the other exception PyNaCl raises for a key or
  signature of the wrong length. evoting.py answers the first exception
  with 400 and the second with 500, through its catch-all handler.
- `Json`. How `json.dumps` writes a string value, plus a reader for such
  string literals. The reader shows that the signed message determines
  its fields.

Each handler is modelled twice. A pure transition function `Submit` gives
the outcome and the new state. A class method `Vote` does the same work
step by step on the object's fields, with the source's early returns, and
its `ensures` states that its outcome and new state are exactly what
`Submit` gives. The lemmas about `Submit` and about `Run` (a fold of
`Submit` over a sequence of requests) state the invariants.

Deliberate oddities of the code that the model keeps:
- evoting2.py does not check the signature at submission.
- evoting.py marks the voter as used before the signature is checked.
- A base64 string that does not decode raises and gives a 500. It is not
  turned into "invalid signature".
- Neither tally reports how many stored ballots it excluded.
- Neither variant makes its check-then-insert atomic.
- The evoting2.py tally decodes `s.encode()` (lines 143-144), while
  `vote()` decodes the string `s` itself (lines 86-87). The model uses one
  `b64decode` for both. They agree on every string `vote()` can store:
  `b64decode` raises on a string with a character outside ASCII, so only
  ASCII strings are stored, and those encode to the same characters.

## Model

| member | source | states |
|---|---|---|
| `Common.Counter` | evoting2.py:155 | `Counter(s)` holds exactly the elements of `s`, each mapped to the number of times it occurs (its multiplicity in `s`). |
| `Common.CounterTotal` | evoting.py:131 | The counts of `Counter(s)` add up to the length of `s`. |
| `Common.SumValuesRemove` | evoting2.py:155 | The sum of a map's counts is one entry's count plus the sum of the rest, for whichever key is taken out. |
| `Common.SumValuesIncrement` | evoting2.py:155 | Counting one more occurrence of a key raises the sum of the counts by exactly one. |
| `Json.ReadDumped` | evoting.py:95 | Reading a dumped string literal gives back the original string and leaves the text after its closing quote untouched. |
| `Json.Escape` | evoting.py:95 | Escaping keeps every character and lengthens each one to at most two characters. |
| `Json.DumpString` | evoting.py:95 | The JSON literal of a string is at least two characters longer than the string. Reading it as a literal gives back the string with nothing left over, so two strings dump to the same literal only if they are equal. |
| `Json.ReadLiteralDumped` | evoting.py:95 | A dumped string followed by any text reads back as that string and leaves the text untouched. |
| `EVoting2.Status` | evoting2.py:69-113 | A repeat voter gets the same redirect status (302) as a recorded vote. Missing fields and a roll mismatch are the client errors (400, 403). A server error (500) comes exactly from an uncaught decode exception. |
| `EVoting2.Submit` | evoting2.py:63-113 | Only a recorded vote changes the dict. It then needs all seven fields and a voter ID that was not a key. The voter ID is appended to the insertion order, and the new entry holds the submitted candidate. |
| `EVoting2.TallyMessage` | evoting2.py:140 | The message is the five fields with four colons in between. It starts with the full name and a colon, and it ends with a colon and the candidate. |
| `EVoting2.Verifies` | evoting2.py:143-149 | A stored vote verifies only if its public key and signature both decode. |
| `EVoting2.VerifiedVotes` | evoting2.py:133-152 | The tally keeps no more votes than there are keys. Every vote it keeps is a stored entry whose strings decode. |
| `EVoting2.SubmitKeepsEntries` | evoting2.py:94-106 | A submission only appends to the insertion order, and every entry already stored keeps its key and its value. |
| `EVoting2.BallotBox.constructor` | evoting2.py:33 | The ballot box starts with an empty `votes` dict. The dict is well formed, and every entry (there are none) is admissible. |
| `EVoting2.BallotBox.Vote` | evoting2.py:63-113 | POST /vote. The outcome and the new dict are exactly those of `Submit`. The dict stays well formed, and admissibility of every entry is preserved. |
| `EVoting2.BallotBox.VotingList` | evoting2.py:128-160 | GET /voting_list. It aborts exactly when some stored key or signature fails to decode, because those decodes are outside the `try`. Otherwise the verified list is the stored votes whose signatures verify, in dict order, and the counts are `Counter` of their candidates. The counts sum to the number of verified votes, and that number is at most the number of stored votes. If every stored entry is admissible, as `vote()` leaves them, the tally never aborts. The dict is not modified. |
| `EVoting2.SubmitOutcomes` | evoting2.py:63-113 | A request missing any of the seven fields gives 400 and nothing changes. A public key or signature that does not decode raises. Recorded and already-voted outcomes require a roll match on all four fields. A roll mismatch happens exactly when both strings decode and no roll row matches. Already-voted happens exactly when both strings decode, a roll row matches and the voter ID is already a key. Recorded happens exactly when the request decodes, is on the roll and has a new voter ID. It then appends that voter ID to the key order and stores the submitted entry under it, and nothing else changes. |
| `EVoting2.OffRollNeverAdmitted` | evoting2.py:80-91 | A voter that no roll row matches is never recorded and never told they already voted, and the dict is unchanged. |
| `EVoting2.SubmitPreservesInvariants` | evoting2.py:94-106 | A submission keeps the dict well formed (distinct keys in insertion order, matching the map). It also keeps every entry on the roll and decodable. |
| `EVoting2.RunKeepsBallots` | evoting2.py:33 | Across any sequence of submissions, the dict stays well formed and admissible. Keys are only appended. Every existing entry keeps its value, so there is at most one ballot per voter ID and it is never overwritten. |
| `EVoting2.SecondVoteKeepsFirst` | evoting2.py:94-96 | After a recorded vote, a later submission with the same voter ID is not recorded and changes nothing. The stored candidate stays the first one. |
| `EVoting2.StoreSize` | evoting2.py:33 | A well-formed dict has exactly as many entries as keys in its insertion order. |
| `EVoting2.VerifiedVotesAppend` | evoting2.py:133-152 | Verifying a concatenation of key sequences gives the concatenation of the results, so verified votes are an ordered subsequence of stored votes. |
| `EVoting2.VerifiedVotesMembers` | evoting2.py:146-152 | A vote is in the verified list exactly when some stored key holds it and its signature verifies over that key's tally message. |
| `EVoting2.TamperedVoteExcluded` | evoting2.py:150-152 | A stored vote whose signature fails is skipped, and the votes before and after it still count. |
| `EVoting2.TallyMessageInjective` | evoting2.py:140 | When the first four fields contain no colon, the colon-joined tally message determines all five fields. |
| `EVoting2.TallyMessageAmbiguous` | evoting2.py:140 | With a colon inside a field, two different (full name, voter ID) splits produce the same message. |
| `EVoting2.RepeatVoterCountedOnce` | evoting2.py:94-155 | Start from an empty dict. A vote for A with a verifying signature is recorded. A repeat under the same voter ID is refused. The tally then shows one vote, for A. |
| `EVoting.PadBase64` | evoting.py:69-71 | The padded string is the input followed by 0 to 3 `=` characters, and its length is a multiple of 4. An input whose length is already a multiple of 4 is returned unchanged, so padding is idempotent. |
| `EVoting.Base64DecodeSafe` | evoting.py:69-72 | The result is plain `b64decode` of the input with just enough `=` appended to reach a multiple of 4: none, one, two or three, for a length of 0, 3, 2 or 1 modulo 4. |
| `EVoting.Status` | evoting.py:87-119 | A success status (200) is returned exactly for a recorded vote, and 403 exactly for a used hash. A server error (500) happens exactly when an exception reaches the catch-all. Missing fields, a used hash and a bad signature are the client errors. |
| `EVoting.VoteMessage` | evoting.py:94-95 | The signed message is a JSON object that starts with the `voter_hash` key and ends with a quote and a closing brace. It holds every character of both fields, so it is at least 32 characters longer than the two fields together. |
| `EVoting.Submit` | evoting.py:76-119 | Stored votes and used hashes are never removed. Exactly one vote is appended, exactly when the outcome is a recorded vote. A request with missing fields or a used hash changes nothing. |
| `EVoting.BallotList.constructor` | evoting.py:21-22 | The list `votes` and the set `used_voter_hashes` start empty. |
| `EVoting.BallotList.Vote` | evoting.py:76-119 | POST /vote. The outcome and the new list and set are exactly those of `Submit`, and there are never more votes than used hashes. |
| `EVoting.BallotList.VotingList` | evoting.py:127-132 | GET /voting_list. Each candidate maps to the number of stored votes for it, and only candidates with a stored vote appear. The counts sum to the number of stored votes, with no re-verification. |
| `EVoting.SubmitOutcomes` | evoting.py:76-119 | A missing or empty public key, signature or candidate gives 400. With the fields present, a key or signature that does not decode gives 500, and a used claimed hash gives 403. Either way nothing changes. A request that passes the duplicate check marks its claimed hash as used, whatever the signature check says. It is then recorded exactly when the signature verifies, refused as invalid exactly when verification raises `BadSignatureError`, and a server error exactly when verification raises the other exception. Only a verified signature over the JSON message appends a vote: exactly one, at the end, holding the recomputed voter hash, the candidate and the raw key and signature strings. |
| `EVoting.BadSignatureBurnsHash` | evoting.py:101-110 | A request that passes the duplicate check and whose verification raises `BadSignatureError` gives 400. It appends nothing and still marks the claimed hash as used. A later request under the same claimed hash gets 403. |
| `EVoting.FreshClaimRecordsAgain` | evoting.py:98-113 | Duplicates are checked only against the hash the client claims. The same key, signature and candidate sent under an unused claimed hash are recorded a second time. |
| `EVoting.SubmitKeepsLedger` | evoting.py:98-113 | A submission keeps the number of votes at or below the number of used hashes. It never removes a used hash or rewrites a stored vote, and it appends at most one vote. |
| `EVoting.RunKeepsLedger` | evoting.py:21-22 | Across any sequence of submissions, there are never more votes than used hashes, and both only grow. |
| `EVoting.RunUsedGrows` | evoting.py:101 | Between two points of a run, the set of used hashes only grows. |
| `EVoting.AdmittedAtMostOnce` | evoting.py:98-101 | In any run, two requests that both pass the duplicate check claimed different hashes. |
| `EVoting.ParseVoteMessageInverts` | evoting.py:94-95 | The compact JSON vote message reads back into the voter hash and candidate it was built from. |
| `EVoting.VoteMessageInjective` | evoting.py:95 | Different (voter hash, candidate) pairs give different signed messages. |
| `EVoting.RepeatVoterCountedOnce` | evoting.py:98-131 | Start from an empty state. A decodable vote for A whose signature verifies is recorded. A second submission under the same claimed hash is not recorded. One vote and a tally of one, for A, remain. |

## Left out

- Flask plumbing is left out: routing, `render_template`, `flash`, `redirect`/`url_for`, the confirmation page and the CSV download route. Outcomes are datatypes, with their HTTP status in `Status`.
- The `session` login check in both `voting_list()` handlers and the hard-coded admin credentials (evoting2.py:129-130, 162-181; evoting.py:128-129, 135-146) are left out. The tallies model what a logged-in admin sees.
- Confirmation email (evoting2.py:108-109, 121-124) is left out, because it is network I/O. The source sends it after storing the vote, so a failed send raises with the vote kept. That case is not modelled.
- The voter roll and candidate list loaded from CSV (evoting2.py:11-13, 43-56; evoting.py:25-57) are left out. The roll is a constructor parameter of string rows. The type coercion pandas applies to CSV columns is not modelled.
- The unused SQLAlchemy `User` model, `db.create_all`, `app.run` and `input` are left out.
- Ed25519, SHA-256, base64 and UTF-8 encoding are uninterpreted functions in `Common.Crypto`. The model does not say what they compute.
- Json.DumpString: escapes only `"` and `\`. `json.dumps` also escapes control characters and every character outside printable ASCII (as `\uXXXX`), so the model agrees with it only for candidate names in printable ASCII.
- The request body is modelled as a map from field names to strings. A body that is not a JSON object, and field values that are not strings, are not modelled.
- evoting2.py reads stored fields with `.get(..., 'Unknown')` defaults (lines 135-138). `vote()` always stores every field, so the defaults never apply and are not modelled.
- In evoting2.py the verified list is re-keyed as `vote0`, `vote1`, … for the template (line 158). That is presentation, so the model returns the list itself.
- The `print` logging (evoting.py:107, 109, 118; evoting2.py:151) is left out. It is console output and changes no state or response.
- `Counter` keeps its keys in order of first occurrence, and the templates iterate them in that order. The model's counts are a `map`, so that order is not modelled. The count of each candidate is.
- evoting.py passes the full `votes` list to the template next to the counts (line 132). That is presentation, so the model returns only the counts. The list is the class field `votes`.
- Concurrency is left out. Flask may run handlers in parallel, and neither variant locks. The model runs one request at a time.
