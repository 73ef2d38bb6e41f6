# concourse-email-resource `out` step, modelled in Dafny

The `out` step of the Concourse email resource sends one email per pipeline
run. It works in these stages:

- It validates the JSON configuration.
- It resolves the subject, extra headers, body and recipient list. Each can be
  given as inline text or as a file under the build's source directory.
- It substitutes six `${NAME}` placeholders from the environment.
- It assembles an RFC 5322 message.
- It runs the SMTP conversation: dial, then STARTTLS and AUTH unless
  anonymous, then MAIL, one RCPT per recipient, DATA, the message and QUIT.
- It writes a small JSON record carrying the SMTP host, the subject and the
  version.

A failure stops the run. A transport failure returns the client's error. Dial,
AUTH, MAIL and RCPT failures also carry a stage tag (`dial`, `auth`, `mail`,
`rcpt`) in the first result slot. Failures of DATA, the write, the close and
QUIT carry an empty tag (out/out.go:196-211).

Everything the step takes from outside is a parameter of the model:

- the environment (`map<string, string>`);
- the decoder's verdict on the JSON (`Result<Input, string>`);
- the files under the source root (`FileSystem`, a map from path to contents);
- the clock (`now: nat`);
- the server's scripted replies, one per SMTP command;
- for each of the four token-substitution passes, the order in which the
  token map is walked. Go leaves the iteration order of a map unspecified, so
  every property about substitution is proved for all orders.

Modules follow the stages:

- `Strs`: Go's `strings.Replace`, `Split`, `Join`, `Trim` and `TrimSpace`.
- `Tokens`: build-token substitution.
- `Errors` and `Config`: error values and the validator.
- `Resolve`: `readSource` and `fromTextOrFile`.
- `Recipients`: merging the recipient list.
- `Message`: message assembly, and splitting it back into headers and body.
- `Tls`: `tlsConfig`.
- `Smtp`: the session. It is specified as a fold over a plan of commands, and
  implemented by the method `Send`, which issues the commands the way the
  source does.
- `Out`: `Execute`.

Three behaviours of the code are easy to miss, and the model keeps them:

- A headers file that cannot be read makes the process exit with status 1
  (out/out.go:106-108), unlike every other read failure, which is returned
  as an error. The model has a separate outcome for this, `Exited`.
- The validator only requires that `source.to` or `params.to` is non-empty
  (out/out.go:52-54). When `source.to` is empty and the `params.to` file is
  empty, the recipient list is therefore empty, and the session goes from
  MAIL straight to DATA (out/out.go:188-196). The model allows this run.
- Substitution walks a Go map (out/out.go:70-75), so the order in which the
  keys are applied is unspecified. The result depends on that order when a
  variable's value contains another placeholder. `Tokens.OrderIsObservable`
  exhibits two orders that give different results.

## Model

| member | source | states |
|---|---|---|
| Strs.ReplaceAll | out/out.go:72 | `strings.Replace(s, k, v, -1)` with a non-empty pattern: replacing a pattern by itself gives the text back, and a replacement as long as the pattern keeps the length |
| Strs.ReplacesEveryOccurrence | out/out.go:72 | With n = -1 every occurrence is replaced. The text is the separator-free pieces of its split joined by the pattern, and the result is the same pieces joined by the replacement, so no occurrence of the pattern is left in any piece |
| Strs.ReplaceAbsent | out/out.go:72 | Replacing a pattern that does not occur in the text leaves the text unchanged |
| Strs.ReplaceWhole | out/out.go:72 | Replacing a pattern in the pattern itself gives exactly the replacement |
| Strs.ReplaceIsJoinOfSplit | out/out.go:72 | Replace-all equals splitting at every occurrence and joining the pieces with the replacement |
| Strs.Split | out/out.go:125 | `strings.Split` with a non-empty separator always gives at least one piece |
| Strs.JoinSplit | out/out.go:125 | Joining the pieces of a split with the same separator gives back the original text |
| Strs.SplitOnRune | out/out.go:125 | Splitting on one character gives one piece more than the character's occurrences, and no piece contains it |
| Strs.SplitWithoutRune | out/out.go:125 | Text without the separator splits into itself alone |
| Strs.SplitAtFirstRune | out/out.go:125 | Text whose first separator follows a separator-free prefix splits into that prefix followed by the pieces of the rest |
| Strs.SplitPiecesHoldNoSep | out/out.go:125 | No piece of a split contains the separator: every occurrence of it in the text falls between two pieces |
| Strs.SplitPiecesFromSource | out/out.go:125 | Every character of every piece occurs in the text that was split |
| Strs.TrimLeft | out/out.go:101 | Removes exactly the maximal leading run of cut characters: the result is a suffix, everything removed is cut, and the result does not start with a cut character |
| Strs.TrimRight | out/out.go:101 | The mirror image of TrimLeft at the end of the text |
| Strs.Trim | out/out.go:101 | The trimmed text neither starts nor ends with a cut character |
| Strs.TrimIsInfix | out/out.go:101 | The trimmed text is a contiguous slice of the input, and only cut characters lie outside it |
| Strs.TrimWithin | out/out.go:127 | Trimming introduces no new characters |
| Strs.TrimKeeps | out/out.go:127 | Text with no cut character at either end is left unchanged |
| Strs.TrimIdempotent | out/out.go:101 | Trimming twice is the same as trimming once |
| Strs.TrimNewlines | out/out.go:101 | After `strings.Trim(s, "\n")` the text neither starts nor ends with a newline |
| Tokens.BuildTokens | out/out.go:20-27 | The token map has exactly the six placeholder keys, each mapped to its variable's value, with unset variables read as "" |
| Tokens.ReplaceTokens | out/out.go:70-75 | Walking the keys in a given iteration order, text containing none of them is returned unchanged |
| Tokens.KeyFreeUnchangedInAnyOrder | out/out.go:70-75 | Text containing none of the six placeholders is returned unchanged, for every iteration order of the map |
| Tokens.PlaceholdersDisjoint | out/out.go:20-27 | Two different `${NAME}` placeholders whose names contain no `$` or `}` never occur inside one another |
| Tokens.NamesArePlain | out/out.go:21-26 | None of the six variable names contains `$` or `}` |
| Tokens.KeysArePlaceholders | out/out.go:20-27 | Each key is `${` + the variable name + `}` |
| Tokens.KeysDisjoint | out/out.go:20-27 | No key occurs inside another key |
| Tokens.PlaceholderReplaced | out/out.go:70-75 | A lone placeholder becomes its value when that value holds no placeholder |
| Tokens.PlaceholderBecomesValue | out/out.go:70-75 | For every iteration order, `${NAME}` alone becomes the value of NAME, provided that value holds no placeholder |
| Tokens.ExampleOrdersAreKeyOrders | out/out.go:71 | Swapping the first two keys still gives a valid iteration order |
| Tokens.NameBeforeId | out/out.go:70-75 | If BUILD_NAME's key is applied before BUILD_ID's, "${BUILD_NAME}" is resolved through "${BUILD_ID}" to "7" |
| Tokens.IdBeforeName | out/out.go:70-75 | If BUILD_ID's key is applied first, "${BUILD_NAME}" ends as "${BUILD_ID}" |
| Tokens.OrderIsObservable | out/out.go:70-75 | Two valid iteration orders give different results when one variable's value is another placeholder |
| Errors.Text | out/out.go:29-66 | The exact error texts of the argument check and the validator; other errors carry their collaborator's text |
| Config.Validate | out/out.go:40-68 | Returns no field exactly when every requirement holds. Otherwise it returns the first field, in check order, whose requirement fails, and every earlier requirement holds |
| Config.AnonymousIgnoresCredentials | out/out.go:60-68 | An anonymous configuration is never rejected for its username or password, and blanking both changes nothing |
| Resolve.ReadSource | out/out.go:77-84 | Succeeds exactly when the located file exists. Success gives the file's token-substituted contents; failure names the located path |
| Resolve.Locate | out/out.go:78-80 | A relative path is joined under the source root, and an absolute one is used as given |
| Resolve.FromTextOrFile | out/out.go:86-95 | Inline text wins, token-substituted. With neither text nor path the result is "". Otherwise the result is the located file, and it fails only when that file is absent |
| Resolve.NoFileReadUnlessPathOnly | out/out.go:86-95 | With inline text, or with neither text nor path, the result does not depend on the file system |
| Resolve.OnlyLocatedFileRead | out/out.go:77-92 | Only the file at the located path, relative to the source root unless absolute, influences the result |
| Recipients.AppendRecipients | out/out.go:124-129 | The fixed list stays in front, and empty content appends nothing. Otherwise one entry is appended per comma plus one, each the trimmed piece in file order, with no deduplication |
| Recipients.TrimmedPieces | out/out.go:125-127 | A trimmed comma-free piece has no surrounding whitespace |
| Recipients.AppendedJoinToContent | out/out.go:124-128 | For content without whitespace, joining the appended entries with "," gives back the content |
| Recipients.TrimLeadingSpace | out/out.go:127 | A leading space is trimmed away from a whitespace-free address |
| Recipients.AppendSpacedPair | out/out.go:124-128 | The list `[a]` with content `" b, c"` becomes `[a, b, c]` |
| Recipients.LoadRecipients | out/out.go:118-130 | Without params.to the list is unchanged. With it, the step succeeds exactly when the located file exists; the result is the fixed list followed by the trimmed comma-separated pieces of the token-substituted file, and a failure is that file's read error |
| Message.Build | out/out.go:148-157 | The message starts with "To: ", and the body is exactly what follows the blank line that closes the header fields |
| Message.BuildIsHeaderLinesThenBody | out/out.go:148-157 | The message is its header lines joined by newlines, then a blank line, then the body |
| Message.SplitMessage | out/out.go:156 | A split message is its header block, then a blank line, then its body, and the header block contains no blank line |
| Message.SplitBuild | out/out.go:148-157 | Splitting an assembled message at its first blank line gives back the header lines and the body unchanged, provided no header field contains a newline |
| Message.SplitSolidBlock | out/out.go:156 | A header block with no empty line, then the blank line, then any body, splits back into that block and that body |
| Message.BuildExample | out/out.go:149-157 | The exact text produced for one recipient, no extra headers, subject "Hi" and body "Hello" |
| Tls.TlsConfigFor | out/out.go:216-236 | The server name is always the host. Verification is skipped exactly when configured. A custom root pool from the CA text is used exactly when validation is not skipped and a CA is given |
| Tls.SkipOverridesCaCert | out/out.go:221-233 | With validation skipped the CA text is ignored. Otherwise certificates are always verified. The system roots are used exactly when validation is skipped or no CA is given |
| Smtp.Plan | out/out.go:162-211 | The planned commands are the opening, one per recipient, and four closing ones; the first dials host:port and the last is QUIT |
| Smtp.PlanLayout | out/out.go:162-211 | Fixes the position of each command in the planned sequence: Dial first; STARTTLS and AUTH next unless anonymous; then MAIL, the RCPTs, and the four closing commands |
| Smtp.PlanAt | out/out.go:162-211 | Dial appears only first. STARTTLS and AUTH appear only at positions 1 and 2, and only when not anonymous, with the configured settings. MAIL appears only after the opening commands, and RCPTs only in their block |
| Smtp.Run | out/out.go:170-211 | Issues a prefix of the plan. A rejected command ends the run and is reported with its stage, except that a rejected STARTTLS is ignored. The run is delivered only when it reaches the end |
| Smtp.Converse | out/out.go:159-213 | The issued commands are a prefix of the plan. Delivery happens exactly when the whole plan ran with every relevant reply accepted. A failure names the stage of the last command issued, after which nothing more is sent |
| Smtp.RunStopsAt | out/out.go:170-211 | A rejection at position n, after acceptances before it, ends the session with exactly the first n+1 commands |
| Smtp.RunDelivers | out/out.go:208-213 | Acceptance all the way through issues the whole plan and delivers |
| Smtp.Issue | out/out.go:170-211 | Issuing one command extends the trace along the plan, and a rejection settles the whole session's outcome |
| Smtp.Open | out/out.go:162-190 | The opening commands either fail with the session's outcome or leave every command accepted so far on plan |
| Smtp.AddRecipients | out/out.go:191-195 | The RCPT loop either fails with the session's outcome or issues every recipient |
| Smtp.Transfer | out/out.go:196-211 | DATA, the message, close and QUIT finish the session exactly as the plan does |
| Smtp.Send | out/out.go:159-213 | The Go-shaped sequence of calls, returning at the first error, issues exactly the commands of `Converse` and ends the same way |
| Smtp.RunIgnoresStartTlsReplies | out/out.go:176 | Changing replies to STARTTLS commands changes nothing |
| Smtp.StartTlsReplyIgnored | out/out.go:175-178 | Two reply scripts that differ only in the reply to STARTTLS give the same session |
| Smtp.MailOnlyAfterAuth | out/out.go:162-188 | MAIL comes right after Dial when anonymous. Otherwise it comes fourth, after Dial, STARTTLS and an accepted AUTH |
| Smtp.AnonymousSkipsTlsAndAuth | out/out.go:181-186 | An anonymous session issues neither STARTTLS nor AUTH |
| Smtp.RcptRefusal | out/out.go:191-195 | A refused k-th recipient ends the session after that RCPT, tagged rcpt. Later recipients and DATA are never sent |
| Smtp.FailureStage | out/out.go:170-211 | The stage of a failure locates it: dial at the first command, auth at the third, mail after the opening, rcpt within the recipients, and untagged for DATA, the write, close or QUIT |
| Smtp.DeliveredSendsEverything | out/out.go:188-213 | A delivered session issued the dial, MAIL, every RCPT and the message |
| Smtp.SessionCarriesSettings | out/out.go:163-178 | STARTTLS carries the delivery's TLS settings, and AUTH carries its credentials and host |
| Smtp.WritesOnlyMessage | out/out.go:200 | The only text written is the assembled message |
| Out.Subject | out/out.go:97-101 | Inline text wins, token-substituted and newline-trimmed. Otherwise the subject is the newline-trimmed, token-substituted located file, the step fails exactly when that file is absent, and with neither the subject is "" |
| Out.Headers | out/out.go:103-111 | No headers path gives "". Otherwise the result is the newline-trimmed, token-substituted located file, and a missing file exits the process with its read error |
| Out.Body | out/out.go:113-116 | Inline text wins, untrimmed. Otherwise the body is the token-substituted located file, failing exactly when it is absent; with neither text nor path the body is empty |
| Out.AllRecipients | out/out.go:118-130 | Without params.to the list is source.to. With it, the step fails exactly when the located file is absent, and otherwise appends the trimmed comma-separated pieces of the substituted file to source.to |
| Out.Gather | out/out.go:97-130 | Fails exactly when a named subject, headers, body or recipients file (not overridden by inline text) is absent. A failure is a halt with a read error or, only for the headers file, an exit. On success subject and headers carry no surrounding newlines, and the recipients extend source.to |
| Out.GatherContent | out/out.go:113-130 | The body read and then the recipients read: fails exactly when a named body file (without inline text) or recipients file is absent, the body file first. Otherwise the fields are the substituted inline text or located files |
| Out.GatherReadValues | out/out.go:97-130 | On success each field is the token-substituted inline text or located file. Subject and headers are newline-trimmed, and the recipients file's pieces are appended to source.to |
| Out.GatherFailsInReadOrder | out/out.go:97-122 | The reads happen in the order subject, headers, body, params.to. The first unreadable file decides the failure, and only the headers file exits instead of halting |
| Out.Prepare | out/out.go:29-130 | The source root is checked first, then the decoder's verdict, then the validator's first missing field. A complete configuration always goes on to the reads, and reads happen only for a complete configuration |
| Out.Skips | out/out.go:144 | The message is not sent exactly when send_empty_body is unset and the resolved body is empty |
| Out.Deliver | out/out.go:144-213 | Skipping an empty body issues nothing and still emits the output. Otherwise the commands are the session's. Output is emitted exactly on delivery. A failure returns the server's rejection reason unchanged, tagged with the stage of the last command |
| Out.Execute | out/out.go:29-68 | A preparation failure issues no command and reports that error. Any command implies a non-empty source root, a decoded and validated configuration, and starts with Dial to host:port |
| Out.PreparedIsDelivered | out/out.go:132-213 | A prepared run with an empty body to skip emits the stamped output without any command. Otherwise it issues exactly the SMTP session's commands and emits exactly on delivery. A failed session is reported with its stage's tag and the server's reason |
| Out.EmittedMetadata | out/out.go:132-143 | A reported output carries the run's time and exactly smtp_host (the configured host), subject (the resolved, newline-trimmed subject) and version (the caller's), in that order |
| Out.TaggedFailures | out/out.go:188-213 | A stage-tagged failure is a transport error, follows at least one command, and its tag (dial, auth, mail or rcpt) names the stage of the last command issued |
| Out.ExitOnlyOnHeaders | out/out.go:103-111 | The process exits only when a named headers file is missing, with that file's read error, and before any command is sent |
| Out.SuccessReachedEveryRecipient | out/out.go:188-213 | A run that sent and succeeded issued RCPT for every fixed recipient and every address read from params.to, and QUIT |
| Out.DeliveredReachesEveryRecipient | out/out.go:188-213 | A delivered session issued RCPT for every recipient of the delivery, and QUIT |
| Out.DeliverReachesEveryRecipient | out/out.go:188-213 | A delivery that sent and succeeded issued RCPT for every resolved recipient, and QUIT |
| Out.AnonymousNeverAuthenticates | out/out.go:162-186 | An anonymous configuration never issues STARTTLS or AUTH |
| Out.SecuredWithConfiguredSettings | out/out.go:162-180 | STARTTLS carries the tlsConfig settings, and AUTH carries the configured username, password and host |
| Out.NoBodyNothingSent | out/out.go:144-147 | With send_empty_body unset and no body given, no SMTP command is issued and no stage-tagged error can occur. Once the configuration is prepared, the output is still emitted |
| Out.PlaceholderSubjectReported | out/out.go:97-101 | A subject that is exactly one placeholder is reported as the trimmed value of its variable, in every iteration order |
| Out.WrittenMessage | out/out.go:148-157 | The text written after DATA is the message assembled from the resolved fields. Its subject and headers carry no surrounding newlines, and there are no extra headers unless a headers file is named |

## Left out

- Strs.ReplaceEmpty: only the length of the result is stated, not where the replacement is inserted. Every key is a non-empty literal (out/out.go:21-26), so the step never replaces an empty pattern.
- JSON decoding and encoding (out/out.go:35, 139). The decoder's verdict is an input, and the output record is a datatype rather than bytes.
- The `json.Marshal` error branch (out/out.go:139-142) is not modelled. Marshalling that fixed struct of strings and a time cannot fail.
- Environment access (out/out.go:21-26) is a map parameter, in which an unset variable reads as "".
- File reads (out/out.go:82) are a map from path to contents. The only failure modelled is an absent file, with the text "no such file or directory". Permission errors and other I/O errors are not modelled.
- `filepath.IsAbs` is modelled as "starts with /", and `filepath.Join` as concatenation with "/" without `Clean`.
- `time.Now().UTC()` (out/out.go:133) is the parameter `now`.
- Real SMTP, the TLS handshake, PEM parsing and `smtp.PlainAuth` internals are replaced by one scripted reply per command, with a missing reply read as a rejection. Two behaviours of the real client are absent as a result. EHLO is implicit. PlainAuth refuses unencrypted non-localhost connections, which in the model is just a rejected AUTH reply.
- Writes to stderr (out/out.go:107, 145) are diagnostics only. The empty-body notice is visible in the model only as a run with no commands.
- `os.Exit(1)` (out/out.go:108) is the terminal outcome `Exited`, not real process termination.
- Go strings are byte strings. The model treats them as sequences of Unicode scalar values, so invalid UTF-8 is not represented.
