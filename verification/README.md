# secure-mcp: a verified model of the control plane

secure-mcp is a broker that stands between AI clients and the services they call. This project models
the part of it that the repository implements itself, in Dafny, and proves what that part guarantees:

- the **DLP filter**: choosing non-overlapping matches, splicing tags into a text, counting findings,
  redacting the string leaves of a JSON tree, and the card checksum (`Spans`, `Splicing`, `Dlp`,
  `RedactArgs`, `Luhn`);
- **admission control**: the lazily refilled token bucket, one bucket for each scope, the daily quota,
  and the gate that composes them (`TokenTime`, `RateLimit`, `Quota`, `Preflight`);
- the **failure gates**: the circuit breaker with the retrying HTTP client, and the login throttle
  (`Pacing`, `Breaker`, `BreakerRuns`, `Throttle`, `Lockout`);
- the **audit log**: redaction, the canonical text of an entry, the hash chain, recovery and
  verification, what the entries say, and the text of the file (`Redaction`, `Json`, `Canonical`,
  `Dictionaries`, `Printed`, `Compact`, `JsonReader`, `JsonReading`, `Sources`, `Reading`, `Audit`, `AuditLog`,
  `AuditEntries`, `AuditText`);
- **signed tokens and policy**: unpadded base64url, minting and verifying session and device tokens,
  versioned policy documents and the 304 answer (`Base64`, `Conversions`, `Tokens`, `PolicyStore`);
- the **gateway** that puts a tool call through all of this (`Guard`, `GuardRuns`,
  `GuardEntries`, `GuardText`).

`Prelude`, `Strings`, `Sorting` and `Folding` hold what the others share: options, string order and decimal
numerals, a stable sort with a proof that it is the only one, and runs of a step function.

## How to read it

Objects whose methods change their fields are classes (`TokenBucket`, `ScopedRateLimiter`,
`DailyQuota`, `ToolContext`, `CircuitBreaker`, `SecureHTTPClient`, `LoginThrottle`, `AuditLogger`,
`Store`, `MCPGuard`). Each method is tied to a step function on the abstract state, and the theorems
are about runs of those step functions. An exception is an outcome value; a constructor that raises is
a static method `Create` or `Open` that returns an option. A clock reading is a parameter of each call.

- **Time and tokens** are reals. Runs of the rate limiter are analysed in token time (seconds times the
  refill rate), where one unit of time is one token; `BucketExact`, `BucketMaximal`, `RefusalsNeutral`,
  `MinuteBound` and the gateway bounds are stated in seconds. `check` builds a bucket on every call
  before `setdefault` decides whether to keep it, so a call has two readings: `born` and `at`.
- **The digest** is any function from strings to 64 characters. It is not assumed to be injective: no
  such function is. Where the argument needs it, the theorem says "or these two entries collide".
- **The keyed hash of tokens** is any function of the secret and the payload.
- **JSON text** is printed by a concrete function (`json.dumps` with `ensure_ascii`, compact
  separators), and that it determines the value is proved. Reading it back is any function that reads the
  printed form of a value as that value, provided that its dictionaries have distinct keys and that each of its
  floats, read alone, is taken as it is written (`Reading.Readable`); what holds no float needs no proviso.
  There is such a function: the reader of `JsonReader`, which follows the grammar of RFC 8259 and does not know the
  printer, reads back every value (`JsonReading.TextReadBack`).
- **Conversions.** What `int()` makes of the expiry of a token is fixed where the value equals an integer, or
  is null, a list or a dictionary, and is any function otherwise. Likewise the place where a logger resumes
  behind a last entry whose hash is not a string, or whose number is not an integer, is a parameter.
- **Matches** come from a function of the text that returns non-empty, in-bounds spans.

## Where the code differs from its documentation, or from what one might expect

- README.md:64-65 and src/secure_mcp/audit.py:43-45 say that truncation of the audit log is detected.
  The code accepts every prefix of a good log (`Audit.TruncationUnnoticed`). What does detect a lost
  tail is a hash remembered elsewhere: one hash pins everything up to it (`Audit.HashPinsPrefix`).
- src/secure_mcp/circuit_breaker.py:12-14 promises a single half-open trial. Two overlapping requests
  both pass (`Breaker.TwoTrials`); after a trial, and until a success is recorded, another request passes if
  and only if every failure recorded since has cooled down (`Breaker.HalfOpenExact`). For requests that do
  not overlap the bound holds (`Breaker.OutageBound`), and for at most m under way at once there is one with m
  (`BreakerRuns.OverlappingOutageBound`).
- src/secure_mcp/admin/auth.py:72-78 reads the clock before it takes the lock, so overlapping failures can
  be recorded out of order and shorten the lockout (`Lockout.LateRecordShortensLock`). The exact condition
  for a check to pass holds without any order (`Lockout.PassExact`); the bounds need the readings in order.
- An audit file that breaks off inside a line either cannot be opened by the logger, or swallows the entry that
  is recorded next (`AuditText.WrittenExact`); a whole entry without its line break is of the second kind
  (`AuditText.WholeEntrySwallows`).
- With `max_fails` below 1 the login throttle still lets the first attempt past, so the guessing bound
  is stated with `max(1, max_fails)`.

## Model

| member | source | states |
|---|---|---|
| Luhn.LuhnOk | src/secure_mcp/dlp.py:45-54 | the checksum loop decides validity on digit strings of every length |
| Luhn.ValidIffFormula | src/secure_mcp/dlp.py:45-54 | valid are exactly the strings whose digits at even distance from the end, and at odd distance the digits of their doubles, sum to a multiple of ten |
| Luhn.SingleDigitErrorDetected | src/secure_mcp/dlp.py:45-54 | a valid string with one digit replaced is valid only if the digit is the same |
| Luhn.AdjacentTranspositionDetected | src/secure_mcp/dlp.py:45-54 | swapping neighbours of a valid string goes unnoticed exactly for equal digits and for 09/90 |
| Luhn.CheckDigitUnique | src/secure_mcp/dlp.py:45-54 | every prefix has exactly one valid check digit |
| Sorting.SortStable | src/secure_mcp/dlp.py:78 | the sort orders, permutes, and keeps the order of ties |
| Sorting.StableSortUnique | src/secure_mcp/dlp.py:78 | any stable sort of the list gives the same list, so the library sort does |
| Spans.DedupeOverlaps | src/secure_mcp/dlp.py:75-85 | the loop computes the greedy choice over the sorted spans, of which the next three rows say what it is |
| Spans.ChosenIsSelection | src/secure_mcp/dlp.py:75-85 | the choice is drawn from the input, pairwise disjoint in increasing order, and every input span starts inside a chosen one, which is at least as long if the two start at the same place |
| Spans.SelectionUnique | src/secure_mcp/dlp.py:76-85 | any two lists with those properties have the same intervals, so they specify the result |
| Spans.OrderIrrelevant | src/secure_mcp/dlp.py:66-85 | permuting the input never changes the chosen intervals |
| Spans.FirstLabelWins | src/secure_mcp/dlp.py:78-84 | of several spans with the same interval the first one reported gives the label |
| Dlp.Scan | src/secure_mcp/dlp.py:88-93 | counting in text order yields the sorted findings of the chosen matches |
| Dlp.Sanitize | src/secure_mcp/dlp.py:96-103 | the right-to-left splice equals the left-to-right rewrite gap, tag, gap, and so on |
| Dlp.TagText | src/secure_mcp/dlp.py:101 | a tag is ten fixed characters, the label and a closing bracket |
| Splicing.PendingStep | src/secure_mcp/dlp.py:100-101 | one splice from the right is one cut of the left-to-right rewrite |
| Splicing.RewriteReplaces | src/secure_mcp/dlp.py:96-103 | replacing disjoint cuts puts each replacement at the shifted place of its start and keeps everything else in order |
| Dlp.SanitizeMeaning | src/secure_mcp/dlp.py:96-103 | for every text: the output is exactly as long as the text less the matches plus 11 and the label for each, every character outside the matches survives in order at its shifted place, and each match has become its tag |
| Dlp.ScanAgreesWithSanitize | src/secure_mcp/dlp.py:88-103 | scan and sanitize report the same sorted histogram, whose counts sum to the number of chosen matches |
| Dlp.HistogramUnique | src/secure_mcp/dlp.py:90-93 | the histogram of a bag of labels is unique |
| Strings.StrLeExact | src/secure_mcp/dlp.py:93 | one string comes before another exactly if it is a prefix of it, or smaller at the first difference |
| Dlp.CleanText | src/secure_mcp/dlp.py:96-103 | there are no findings exactly when there is no match, and then the text is unchanged |
| Dlp.Apply | src/secure_mcp/dlp.py:122-131 | block mode raises exactly when there is a match; otherwise the text is the sanitized one in redact mode and the original in the others, with the findings of sanitize |
| RedactArgs.Traverse | src/secure_mcp/mcpguard/proxy.py:44-53 | the recursion yields the leaf-wise sanitized tree and appends the leaf findings in traversal order |
| RedactArgs.RedactArguments | src/secure_mcp/mcpguard/proxy.py:39-55 | the same for a whole argument tree, from an empty list of findings |
| RedactArgs.RedactionLeafwise | src/secure_mcp/mcpguard/proxy.py:39-55 | redaction keeps shape, keys and other leaves, and maps sanitize over the string leaves in order |
| RedactArgs.TreeDetermined | src/secure_mcp/mcpguard/proxy.py:39-55 | skeleton and leaves determine a tree, so the two facts above specify the result |
| RedactArgs.CleanTree | src/secure_mcp/mcpguard/proxy.py:85-89 | findings are empty exactly when no leaf has a match, and then the tree is unchanged |
| TokenTime.LevelExact | src/secure_mcp/rate_limit.py:21-30 | the lazily updated level is the least of the headrooms of all windows that end now |
| TokenTime.AdmittedIffFits | src/secure_mcp/rate_limit.py:21-30 | a call is admitted if and only if it fits every window that ends with it |
| TokenTime.ExactUnique | src/secure_mcp/rate_limit.py:21-30 | only one schedule of admissions satisfies that rule |
| TokenTime.WindowBound | src/secure_mcp/rate_limit.py:21-30 | no stretch of calls takes more than the capacity and what comes in during it |
| TokenTime.RefillsCompose | src/secure_mcp/rate_limit.py:24-25 | a refill in two steps is the refill in one |
| RateLimit.TokenBucket.Create | src/secure_mcp/rate_limit.py:12-19 | raises exactly on a capacity or rate that is not positive; a new bucket is full |
| RateLimit.TokenBucket.Consume | src/secure_mcp/rate_limit.py:21-30 | refills to now, then takes n tokens or refuses; a refusal keeps the refill |
| RateLimit.BucketExact | src/secure_mcp/rate_limit.py:21-30 | in seconds: call k is admitted if and only if, for each earlier or current call i, what was taken since i plus call k is at most capacity + refill*(t_k - t_i) |
| RateLimit.BucketMaximal | src/secure_mcp/rate_limit.py:21-30 | no other schedule that keeps every window has admitted more unit calls at any moment |
| RateLimit.RefusalsNeutral | src/secure_mcp/rate_limit.py:21-30 | deleting any set of refused calls from a run leaves every other outcome unchanged |
| RateLimit.ScopedRateLimiter.Check | src/secure_mcp/rate_limit.py:43-50 | a call acts on the bucket of its scope alone, making it if it is missing, of capacity per_minute and refilled with per_minute tokens in sixty seconds; a limit that is not positive always raises |
| RateLimit.ScopeExactSeconds | src/secure_mcp/rate_limit.py:33-50 | over any interleaving of scopes, call k is admitted if and only if, for each earlier or current call i on its scope, the calls admitted on the scope since i and call k itself are at most per_minute + per_minute*(t_k - t_i)/60 |
| RateLimit.ScopesIsolated | src/secure_mcp/rate_limit.py:33-50 | a scope's outcomes and bucket are those of a single bucket fed with its own calls |
| RateLimit.OtherScopesIrrelevant | src/secure_mcp/rate_limit.py:33-50 | leaving out the calls on other scopes changes no outcome on this one |
| RateLimit.ScopeWindow | src/secure_mcp/rate_limit.py:33-50 | in any interleaved run a scope keeps the window bound |
| RateLimit.MinuteBound | src/secure_mcp/rate_limit.py:33-50 | no sixty seconds see more than 2*per_minute admitted calls on one scope |
| Quota.DailyQuota.Check | src/secure_mcp/quota.py:29-39 | rolls over to today, then counts the call or refuses it; a limit that is not positive switches the quota off |
| Preflight.QuotaOff | src/secure_mcp/quota.py:29-31 | with a limit of zero or less no call is refused for the quota, over any run, and nothing is counted |
| Preflight.ToolContext.Preflight | src/secure_mcp/context.py:23-31 | authorization, then quota, then rate; an earlier refusal leaves the later guards untouched |
| Preflight.OutcomeCause | src/secure_mcp/context.py:23-31 | each refusal has its own cause: the scope, then the quota, then the rate limit |
| Preflight.PassIffSeconds | src/secure_mcp/context.py:23-31 | over any run, a call that passes authorization and quota passes the gate if and only if, for each call on its scope that reached the limiter, the passes since then and itself are at most per_minute + per_minute*(t_k - t_i)/60 |
| Preflight.Conservation | src/secure_mcp/context.py:23-31 | over every run the quota counter of a day is the tokens spent over all scopes plus the rate refusals, and each authorized call is accounted for |
| Preflight.QuotaExact | src/secure_mcp/quota.py:29-39 | the n-th authorized call of a day passes the quota if and only if n is at most the limit |
| Preflight.RemainingExact | src/secure_mcp/quota.py:41-47 | remaining() is the limit minus what the day has used |
| Preflight.DayBudget | src/secure_mcp/context.py:23-31 | a finished day never used more than the limit |
| Preflight.BucketsOfGate | src/secure_mcp/context.py:29-31 | inside the gate the limiter sees exactly the calls that passed authorization and quota |
| Preflight.PassesAreAdmissions | src/secure_mcp/context.py:29-31 | a call passes the gate exactly when that limiter admits it |
| Preflight.PassesPerMinute | src/secure_mcp/context.py:23-31 | no sixty seconds see more than 2*per_minute calls pass the gate on one scope |
| Breaker.CircuitBreaker.Create | src/secure_mcp/circuit_breaker.py:19-26 | raises exactly on settings that are not positive |
| Breaker.CircuitBreaker.Before | src/secure_mcp/circuit_breaker.py:28-38 | lets a call pass when closed or cooled down, and then clears the opening time |
| Breaker.CircuitBreaker.RecordFailure | src/secure_mcp/circuit_breaker.py:45-49 | counts the failure and opens from the threshold on |
| Breaker.CounterExact | src/secure_mcp/circuit_breaker.py:28-49 | in every interleaving the counter is the failures since the last success, and open implies that it has reached the threshold |
| Breaker.NobodyPassesWhileOpen | src/secure_mcp/circuit_breaker.py:28-49 | after an opening failure nobody passes during the cooldown unless a success is recorded in between |
| Breaker.HalfOpenExact | src/secure_mcp/circuit_breaker.py:28-38 | after a half-open trial, and until a success is recorded, another request passes if and only if every failure recorded since the trial has cooled down |
| Breaker.TwoTrials | src/secure_mcp/circuit_breaker.py:12-14 | the single-trial claim fails: two overlapping requests both pass |
| Breaker.DoRequest | src/secure_mcp/http_client.py:61-71 | one to three attempts; all but the last failed by transport or with a status of 500 or more, and such a reply ends the call only at the third |
| Breaker.SecureHTTPClient.Send | src/secure_mcp/http_client.py:73-83 | one request asks the breaker once; a rejected one makes no attempt and records nothing, and one that passes records a failure exactly if its last reply is no response or has a status of 500 or more, and a success otherwise |
| Breaker.RequestsAreSteps | src/secure_mcp/http_client.py:73-83 | any run of requests that do not overlap is a run of breaker steps: the question, and behind each pass the success or the failure that it records |
| Breaker.RequestsCounted | src/secure_mcp/http_client.py:73-83 | the counter is the number of requests that passed and failed since the last that succeeded, and a success closes the breaker |
| Breaker.OutageBound | src/secure_mcp/http_client.py:61-83 | in an outage at most threshold + floor(T/cooldown) requests pass in any T seconds, with at most three times as many attempts |
| Breaker.OutagePassIff | src/secure_mcp/circuit_breaker.py:28-49 | in an outage a request passes exactly below the threshold or after the cooldown |
| BreakerRuns.PassCooled | src/secure_mcp/circuit_breaker.py:28-49 | in every interleaving without a success, a request that passes does so below the threshold or a full cooldown after the failure recorded last |
| BreakerRuns.OverlappingOutageBound | src/secure_mcp/http_client.py:73-83 | in an outage with at most m requests under way at once, at most threshold - 1 + m*(1 + floor(T/cooldown)) requests pass in any T seconds |
| Pacing.PacedWindow | src/secure_mcp/circuit_breaker.py:28-49 | events that keep a distance from the n-th on number at most n + floor(T/gap) in T seconds |
| Throttle.LoginThrottle.RecordFailure | src/secure_mcp/admin/auth.py:72-78 | adds a failure and locks from max_fails on |
| Throttle.LoginThrottle.Reset | src/secure_mcp/admin/auth.py:80-82 | forgets the source, and only it |
| Throttle.LoginThrottle.Try | src/secure_mcp/admin/server.py:114-126 | a locked source changes nothing; past the lock a wrong secret is recorded and a right one resets |
| Throttle.SourcesIsolated | src/secure_mcp/admin/auth.py:57-82 | a source's entry and passes are those of its own attempts alone |
| Throttle.GuessingHolds | src/secure_mcp/admin/auth.py:72-78 | the failure count is the number of attempts that got past, and survives the expiry of a lock |
| Throttle.GuessingBound | src/secure_mcp/admin/auth.py:57-82 | a guessing source gets past at most max_fails + floor(T/lock_sec) times in any T seconds |
| Throttle.PastIff | src/secure_mcp/admin/auth.py:66-78 | one at a time, a guess gets past exactly below the allowance or after the lock time |
| Lockout.PassExact | src/secure_mcp/admin/auth.py:66-82 | in every interleaving of is_locked, record_failure and reset, a check passes exactly below the allowance or after the lock of the failure recorded last |
| Lockout.AttemptsAreSteps | src/secure_mcp/admin/server.py:114-126 | any run of attempts one after the other is a run of the locked steps: the check, and behind each pass the failure recorded, nothing, or the reset |
| Lockout.NobodyPassesWhileLocked | src/secure_mcp/admin/auth.py:66-82 | with readings in order, nobody passes for lock_sec after a failure that reaches the allowance, unless the source is reset in between |
| Lockout.LateRecordShortensLock | src/secure_mcp/admin/auth.py:72-78 | without that order it fails: the clock is read before the lock is taken, so a late record with an earlier reading shortens the lock |
| Lockout.OverlappingGuessesBound | src/secure_mcp/admin/server.py:114-126 | with at most m guesses under way at once, a source gets past at most max_fails - 1 + m*(1 + floor(T/lock_sec)) times in any T seconds |
| Pacing.StridedWindow | src/secure_mcp/admin/auth.py:72-78 | events of which each keeps a distance from the m-th before it number at most n + m*floor(T/gap) in T seconds |
| Redaction.RedactClean | src/secure_mcp/audit.py:16-21 | no value other than the marker stays under a secret name, at any depth; what is clean is left alone |
| Redaction.RedactExact | src/secure_mcp/audit.py:16-21 | exactly the values under secret names become the marker; names, order and all else stay, at every depth |
| Redaction.SecretUpToCase | src/secure_mcp/audit.py:11-18 | a name is secret exactly if it spells one of the six words, whatever the case of its letters |
| Json.PrintInjective | src/secure_mcp/audit.py:28 | the printed text determines the JSON value |
| JsonReading.TextReadBack | src/secure_mcp/audit.py:85 | the reader that follows the JSON grammar takes the printed text of any value for exactly that value, if each of its floats, read alone, is taken as it is written |
| Compact.PrintUnspaced | src/secure_mcp/audit.py:28 | a printed text holds a blank only inside a string that does |
| Compact.EscapeExact | src/secure_mcp/audit.py:28 | a character in a string is read back from what is written for it, which is as short as ASCII allows |
| Canonical.CanonicalInjective | src/secure_mcp/audit.py:24-28 | the canonical text determines the value up to the order of items |
| Canonical.NormExact | src/secure_mcp/audit.py:28 | the normal form has the items of a dictionary, sorted by key, and the elements of a list in their order, each in its normal form |
| Canonical.NormIsDictEquality | src/secure_mcp/audit.py:24-28 | equal normal forms are equal dictionaries, and the other way round |
| Audit.MessageInjective | src/secure_mcp/audit.py:31-35 | the fixed-width previous hash makes the hashed message split in one way only |
| Audit.VerifyChain | src/secure_mcp/audit.py:93-112 | accepts exactly the good logs; otherwise reports the least line whose prefix fails, and the check that fails there |
| Audit.GoodStarts | src/secure_mcp/audit.py:13 | the first entry of an accepted log has number 0 and follows 64 zeros |
| Audit.TruncationUnnoticed | src/secure_mcp/audit.py:43-46 | verification answers Ok for every prefix of a log that it accepts |
| Audit.HashPinsPrefix | src/secure_mcp/audit.py:31-35 | two accepted logs that share a hash anywhere have it at the same place and agree up to it, or exhibit a digest collision |
| Audit.SameLastHashSameLog | src/secure_mcp/audit.py:93-112 | two accepted logs with the same last hash are the same entry for entry, or exhibit a collision |
| AuditLog.Recover | src/secure_mcp/audit.py:58-71 | resumes at the last line that is not blank |
| AuditLog.GoodResumes | src/secure_mcp/audit.py:58-71 | on a good log this is the hash and number at which the chain ends |
| AuditLog.AuditLogger.Open | src/secure_mcp/audit.py:50-56 | raises exactly when the last line cannot be resumed from; otherwise the logger stands at the end of the file, and nothing has been recorded yet |
| AuditLog.AuditLogger.Append | src/secure_mcp/audit.py:73-87 | record() appends one entry behind the cached position and moves the position to the new end; the file stays what the records since its opening have made of it, and the following rows say what that is |
| AuditEntries.NewEntrySays | src/secure_mcp/audit.py:73-87 | an entry gives back the time, caller, tool, action and result that were recorded, and the details redacted; nothing in it shows a secret |
| AuditEntries.SessionsSay | src/secure_mcp/audit.py:50-87 | over any sessions from an empty file the log has one such entry for each record, in order |
| AuditEntries.CleanDetailsKept | src/secure_mcp/audit.py:81 | details without secrets are recorded as they are |
| AuditLog.NewEntryLinks | src/secure_mcp/audit.py:74-84 | a recorded entry passes the three checks of verify_chain |
| AuditLog.AppendedGood | src/secure_mcp/audit.py:73-87 | recording continues a good log by exactly that entry |
| AuditLog.SessionsKeepGood | src/secure_mcp/audit.py:50-87 | any number of records over any number of sessions extends a good log by one entry each |
| AuditLog.FreshLogGood | src/secure_mcp/audit.py:50-112 | from an empty file the log is accepted and numbered from 0 to n-1 |
| Dictionaries.NormProper | src/secure_mcp/audit.py:28 | sorting the items keeps the keys of every dictionary distinct |
| Sources.NormKept | src/secure_mcp/edge/auth.py:30-31 | sorting the items keeps every float, so what is minted can be read back if the claims can |
| Sources.RedactKept | src/secure_mcp/audit.py:16-21 | redaction adds no float, so what is recorded can be read back if the details can |
| Printed.PrintVisible | src/secure_mcp/audit.py:85 | whatever the value, its printed form is printable ASCII |
| AuditText.PrintedOnOneLine | src/secure_mcp/audit.py:85 | a printed entry has no line break and is not blank |
| AuditText.EntryReadBackExact | src/secure_mcp/audit.py:64-70 | a readable entry behind a text is read back as one more entry if and only if the text does not break off inside a line |
| AuditText.WrittenExact | src/secure_mcp/audit.py:58-87 | what a logger writes behind a text reads as the log with the entry recorded if and only if the text does not break off inside a line, or the logger could not open it |
| AuditText.WholeEntrySwallows | src/secure_mcp/audit.py:58-87 | a file that ends with a whole entry but without its line break is opened, and after the next record still has one line |
| AuditText.SessionsWritten | src/secure_mcp/audit.py:73-87 | over any number of sessions of readable records the text of the file, split and read, gives the lines of the log |
| AuditText.FreshFileAccepted | src/secure_mcp/audit.py:93-112 | verification of the text of a file that started out empty answers Ok, with one entry for each record |
| Base64.UnpaddedRoundTrip | src/secure_mcp/edge/auth.py:10-15 | for all byte strings, stripping and restoring the padding inverts base64url, and the text has no dot and no padding |
| Base64.EncodeUnpaddedInjective | src/secure_mcp/admin/auth.py:11-17 | the unpadded text determines the bytes |
| Base64.AlphabetExact | src/secure_mcp/edge/auth.py:10-11 | the 64 characters are those of the URL-safe alphabet, in its order (RFC 4648, section 5) |
| Base64.QuadValue | src/secure_mcp/edge/auth.py:10-11 | three bytes are written as the four sextets of their 24 bits |
| Base64.ShortValue | src/secure_mcp/edge/auth.py:10-11 | one or two bytes at the end are filled up with zero bits and padded |
| Base64.EncodeGroups | src/secure_mcp/edge/auth.py:10-11 | groups of three bytes are encoded one after the other |
| Tokens.MintVerify | src/secure_mcp/edge/auth.py:27-54 | a minted token verifies under the same secret with the same claims at exactly the times before its expiry |
| Tokens.DeviceRoundTrip | src/secure_mcp/edge/auth.py:27-54 | a device token gives back the group and the device, exactly before its expiry |
| Tokens.SessionRoundTrip | src/secure_mcp/admin/auth.py:32-54 | a session token is accepted exactly before its expiry |
| Tokens.ExpiryTruncates | src/secure_mcp/edge/auth.py:29 | the expiry is the whole number next to now + ttl on the side of zero |
| Tokens.GrantedIffGenuine | src/secure_mcp/edge/auth.py:37-54 | exactly the tokens whose second part signs the first, that can be read and have not expired, are granted |
| Tokens.RaisesIff | src/secure_mcp/edge/auth.py:37-54 | verification raises exactly for parts that are not ASCII, and for a genuine token whose expiry is infinite |
| Tokens.SignatureBindsPayload | src/secure_mcp/edge/auth.py:37-54 | two granted tokens with one signature are one token, or their payloads collide |
| Tokens.SplitExact | src/secure_mcp/edge/auth.py:39-42 | splitting at the first dot takes apart and puts together the same token |
| PolicyStore.ValidateSettings | src/secure_mcp/policy_store.py:50-65 | accepts exactly known keys with values of their type, and cleans the lists |
| PolicyStore.ListCleaned | src/secure_mcp/policy_store.py:60-63 | a cleaned list is, in order, the first thousand entries of which stripping leaves something, stripped |
| PolicyStore.ValidationStable | src/secure_mcp/policy_store.py:50-65 | validated settings validate again to themselves |
| PolicyStore.Store.SetSettings | src/secure_mcp/policy_store.py:144-150 | an accepted update stores the next version of its group, with the cleaned settings and the time given; a rejected one leaves all groups unchanged |
| PolicyStore.LatestPublished | src/secure_mcp/policy_store.py:144-150 | over every run a group has a document exactly if an update for it was accepted, and then it is the latest one: its time, and its settings key by key, booleans equal and lists cleaned |
| PolicyStore.GroupExact | src/secure_mcp/policy_store.py:26 | a group is accepted exactly if it has 1 to 64 of the allowed characters, with or without one newline behind them |
| PolicyStore.VersionsCount | src/secure_mcp/policy_store.py:144-150 | over every run the version of a group is the number of its accepted updates |
| PolicyStore.VersionDeterminesDoc | src/secure_mcp/policy_store.py:138-150 | versions never go back, and a group and a version determine one document |
| PolicyStore.EtagInjective | src/secure_mcp/edge/server.py:102 | equal ETags mean equal versions |
| PolicyStore.EtagQuotesVersion | src/secure_mcp/edge/server.py:102 | the ETag is weak and quotes the version |
| PolicyStore.NotModifiedExact | src/secure_mcp/edge/server.py:94-118 | a client that asks again with the ETag it was served gets 304 if and only if that document is still current, and otherwise a later version |
| Guard.MCPGuard.Call | src/secure_mcp/mcpguard/proxy.py:82-109 | one call steps the gate and sends at most once; the entry that it logs before it ends carries the label of the ending it then has |
| Guard.MCPGuard.ForwardRedacted | src/secure_mcp/mcpguard/proxy.py:86-92 | what is sent upstream, and how the try block ends |
| Guard.MCPGuard.Conclude | src/secure_mcp/mcpguard/proxy.py:93-109 | the entry is written from the outcome of the try block, and only then the exception is raised or the result returned; label and ending agree |
| GuardRuns.TraceExists | src/secure_mcp/mcpguard/proxy.py:82-109 | every list of calls has a trace |
| GuardRuns.Serve | src/secure_mcp/mcpguard/proxy.py:82-109 | a fresh gateway that serves a list of calls returns the results of the trace, and leaves the gate, the upstream and the audit file as the trace says |
| GuardRuns.ServeNext | src/secure_mcp/mcpguard/proxy.py:82-109 | a gateway that has served the first k calls of a run serves the next one as the trace says |
| GuardRuns.RunContinues | src/secure_mcp/mcpguard/proxy.py:82-109 | a run continues a good audit log by one entry for each call |
| GuardRuns.OneEntryEach | src/secure_mcp/mcpguard/proxy.py:93-103 | each call appends exactly one entry, labelled "ok" if and only if a result is returned, "blocked" if and only if the response is refused, and "error" if and only if an exception of the try block is raised |
| GuardEntries.EntryOfCall | src/secure_mcp/mcpguard/proxy.py:93-103 | the entry of a call gives its time, the caller id, the label of its ending, and in clear the server and tool with either the type of the exception or the risk, the signals and the findings of the response and of the arguments |
| GuardRuns.SentCount | src/secure_mcp/mcpguard/proxy.py:90 | the upstream is called at most once for each call |
| GuardEntries.ForwardSeen | src/secure_mcp/mcpguard/proxy.py:90 | the n-th call that the upstream sees is the n-th that was forwarded, with its server, its tool and the arguments of the trace |
| GuardRuns.TraceOnlyPassed | src/secure_mcp/mcpguard/proxy.py:84-90 | only calls that scope, quota and rate accepted are forwarded |
| GuardRuns.ForwardsPerDay | src/secure_mcp/mcpguard/proxy.py:82-90 | with a positive limit no day sees more forwards than the limit |
| GuardRuns.ForwardsPerMinute | src/secure_mcp/mcpguard/proxy.py:82-90 | no sixty seconds see more forwards than 2*per_minute |
| GuardRuns.TraceContent | src/secure_mcp/mcpguard/proxy.py:85-90 | what is forwarded is the leaf-wise sanitized tree in redact mode, a finding-free tree in block mode, the original in flag mode |
| GuardRuns.TraceEnding | src/secure_mcp/mcpguard/proxy.py:98-109 | a result is returned exactly for a forwarded and answered call whose risk is not blocked, and it is the upstream's reply; the response is refused exactly for the other answered ones |
| GuardEntries.TraceError | src/secure_mcp/mcpguard/proxy.py:84-97 | a refused call raises the exception of the guard that refused it, a blocked one the block, and any other failing one what came from the upstream or the screening |
| GuardRuns.FailsClosed | src/secure_mcp/mcpguard/proxy.py:84 | without the scope "mcp_proxy", or with a rate limit that is not positive, nothing is ever forwarded |
| GuardText.RunWritten | src/secure_mcp/mcpguard/proxy.py:93-103 | after a run the text of the audit file, split and read, gives the log of the run |

## Left out

- Regular expressions and their patterns, and the assembly of the span list (`_all_spans`,
  `_credit_card_spans` with its length check): a match is any non-empty, in-bounds span. Sanitizing twice is
  not claimed to change nothing, because a tag could match.
- Float rounding: time, tokens and expiry are exact reals. Clocks that go backward are excluded from the
  run theorems; the methods themselves accept any reading.
- Locks and threads, except for the breaker and the throttle, whose theorems hold for every interleaving of
  their locked steps. `AuditLogger.record` and `PolicyStore.set_settings` take no lock and are modelled as sequential.
- File-system effects: an audit file is a text (or the sequence of its lines) and a policy directory is a map,
  so path resolution, symbolic links, case-insensitive names, and line breaks other than the newline are not
  captured.
- SHA-256, HMAC and Ed25519, key derivation and the key files; `sign` and `verify_envelope` add only an
  ideal signature around a document.
- Limits of the interpreter on the digits of an integer and on the depth of nesting.
- Strings are sequences of Unicode scalar values: lone surrogates in JSON text are not modelled.
- Sequence numbers read from JSON: whole floats and booleans equal integers as in Python, except for floats
  from 1e16 on, whose repr has an exponent.
- Base64.UnpaddedRoundTrip: does not model that Python's decoder skips characters outside the alphabet;
  nor that it reads `+` and `/` like `-` and `_`; the decoder here refuses all these. Signed payloads never
  contain any.
- PolicyStore.ValidateSettings: does not model which characters `str.strip` removes, because only that
  stripping twice changes nothing matters; the group pattern does accept a final newline, as the code does.
- The HTTP handlers, TLS, views, configuration, adapters and the MCP transport. Of `_policy` the bearer check
  and the audit entry are left out; of `_enroll` and `_login` only their use of the throttle is modelled.
- The backoff between attempts and the transport: a request carries the three replies it would get.
- `list_tools`, the injection screens and the URL verdict and events handlers, which are settled by reading
  one branch each; the screen of a response is part of the upstream's reply here.
- Audit details are dictionaries with string keys; `default=str` rendering is not modelled.
