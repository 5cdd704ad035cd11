# go-ipset in Dafny

A model of the `ipset` package of go-ipset (`ipset/ipset.go`), a thin Go wrapper
around the `ipset` command-line tool that manages named Linux kernel IP sets. Every
operation of the package builds an argument vector, runs the tool once (or a fixed
sequence of times), and turns the reply — success or failure plus the combined output —
into a Go result: a set handle, a membership answer, a token list, statistics or an error.

The model keeps that shape:

- **The tool** is a parameter, `Exec.Tool = (seq<Argv>, Argv) -> Reply`: given every
  command issued before and the command now being run, it answers `Reply(ok, output)`.
  Each operation returns a `Step` holding the extended command history and its value,
  so contracts state exactly which commands were run, in which order, and how the
  replies were read.
- **Path resolution** (`exec.LookPath`) is the parameter `Gate.LookPath`, and the
  package-level `ipsetPath` variable is the explicit `Gate` value threaded through
  `InitCheck`, `New` and `DestroyAll`.
- **Text processing** is written out: `strings.FieldsFunc` with the package's
  separator predicate and `strings.Fields` (`Text.Fields` over a separator predicate),
  `strings.Split`, `strings.HasPrefix`, `strings.Contains`, `strconv.Itoa`, a decimal
  `strconv.ParseUint` with its 64-bit range error, the header-stripping regular expression
  `(?m)^(.*\n)*Members:\n` (by the language it matches) and the version matcher
  `v[0-9]+\.[0-9]+` (leftmost match).
- **A reference kernel** (`Kernel`) gives meaning to command sequences: a table of named
  sets whose tool replies follow from replaying the history. It states what the command
  sequences achieve: `Add`, `AddOption`, `Del`, `Flush`, `Swap`, `Destroy`, `destroyIPSet`,
  `Refresh` and the destroy loop of `DestroyAll`. The package itself never depends on it.

Modules: `Wrappers` (Option), `Text`, `Numbers`, `Exec` (tool, errors, one checked command),
`Listing` (`list`, `listWithOpts`, `listAllSetNames`), `StatsParser` (the loop inside
`Statistics`), `Version` (`getIpsetVersionString`, `getIpsetSupportedVersion`), `Gate`
(`initCheck`), `Ipset` (the exported API), `Kernel` (reference semantics).

Behaviour of the code as written that the model keeps and proves:

- `listWithOpts` builds the option vector and then runs `list <name>` without it, so
  `ListTerse` is `List` (`Listing.ListWithOpts`, `Ipset.ListTerse`).
- `Statistics` reads only the first listed token, re-split on white space; since a token
  never holds a space, the `Size in memory` and `Number of entries` cases are unreachable
  and those counts are always 0 (`StatsParser.StatsOfTerse`). A `Type` or `References`
  field with fewer than three `:`-separated parts indexes out of range, modelled as the
  outcome `IndexPanic`. On a bad `References` number the value `ParseUint` returned
  (0 or 2^64-1) is stored before the error is returned.
- `New` writes the defaults into the caller's `Params` before it checks the hash type.
- `initCheck` stores the resolved path before checking the version, so a rejected
  version is reported once and accepted on the next call; a version that cannot be
  read at all is treated as supported.
- `createHashSet` creates with `-exist` and deliberately does not flush, and `Refresh`
  returns at a failed swap without destroying its temporary set. A temporary set left over
  in this way keeps its members, and the next `Refresh` of the same set adds them to the
  new entries (`Kernel.RefreshMergesLeftover`, `Kernel.StaleTempLeaks`).
- `DestroyAll` ignores the result of `initCheck`, and with the empty prefix issues a bare
  `destroy` whose error carries no output.

## Model

| member | source | states |
|---|---|---|
| Text.Fields | ipset/ipset.go:425-433 | every token `FieldsFunc` returns is non-empty and free of newline, carriage return, space and tab |
| Text.FieldsKeepEveryOtherCharacter | ipset/ipset.go:428-433 | the tokens, concatenated, are the input with exactly the separator characters removed: no other character is lost or invented |
| Text.FieldsAroundSeparator | ipset/ipset.go:428-433 | a separator cuts the token stream: the tokens of `a + sep + b` are the tokens of `a` followed by those of `b`, so blank lines and runs of spaces produce no empty tokens |
| Text.FieldsOfJoin | ipset/ipset.go:428-433 | tokens joined with any separator character split back into exactly those tokens |
| Text.Split | ipset/ipset.go:255 | `strings.Split` returns at least one piece, no piece contains the delimiter, and the first piece is a prefix of the input |
| Text.JoinOfSplit | ipset/ipset.go:255 | rejoining the pieces with the delimiter gives back the input |
| Text.SplitOfJoin | ipset/ipset.go:255 | delimiter-free pieces joined and split again are the same pieces |
| Text.ListSeparatorsAreSpaces | ipset/ipset.go:253 | every list separator is also white space for `strings.Fields` |
| Numbers.Itoa | ipset/ipset.go:101-102 | `strconv.Itoa` prints decimal digits, with a leading minus sign exactly for negative values |
| Numbers.AtoiOfItoa | ipset/ipset.go:101-102 | reading a printed integer back gives the integer, so the numbers on a command line are recoverable |
| Numbers.ValueOfDigits | ipset/ipset.go:101-102 | the decimal digits of `n` denote `n` |
| Numbers.DigitsOfValue | ipset/ipset.go:268 | a digit string without a leading zero is the printed form of its value |
| Numbers.ParseUint | ipset/ipset.go:268 | a parse succeeds only for a non-empty all-digit text whose value fits in 64 bits, and yields that value; a range error means some digit prefix already exceeds 2^64-1; empty text is a syntax error |
| Numbers.ParseUintOfDigits | ipset/ipset.go:268 | for any digit string the parse succeeds exactly when the value fits in 64 bits and is a range error otherwise |
| Numbers.ParseUintOfItoa | ipset/ipset.go:268 | every 64-bit unsigned value printed in decimal parses back to itself |
| Exec.Checked | ipset/ipset.go:199-203 | exactly one command is appended to the history; the result is success exactly when the tool succeeds, and the error carries the argument vector and the tool's output |
| Listing.HeaderPatternIsHeaderEnd | ipset/ipset.go:363 | a text is in the language of `^(.*\n)*Members:\n` exactly when it ends with a line `Members:` that starts at the beginning of a line |
| Listing.StripHeader | ipset/ipset.go:363-364 | the result is a suffix of the output; nothing is removed exactly when no header end occurs; otherwise what is removed ends at a header end and no later header end exists |
| Listing.StripHeaderRemovesLongestMatch | ipset/ipset.go:363-364 | in terms of the pattern itself: with no matching prefix the output is unchanged, otherwise the longest matching prefix is removed |
| Listing.ListTokens | ipset/ipset.go:363-365 | the tokens are separator-free and, concatenated, are the stripped output without its separators |
| Listing.ListTokensOfMembers | ipset/ipset.go:358-366 | a listing made of a header and one line per member, each member free of spaces, tabs, carriage returns and newlines, gives back exactly the members, in order (colons of IPv6 addresses and `ip,proto:port` entries included); only a member spelled `Members:` would be taken for the header end. A member line with further columns, such as `10.0.0.1 timeout 300`, is outside this lemma and yields one token per column |
| Listing.List | ipset/ipset.go:358-366 | issues `list <name>`; the result is a token list exactly when the tool succeeds, the tokens are those of the output after the header, and a failure carries the output |
| Listing.ListWithOpts | ipset/ipset.go:368-382 | whatever the options, the result and the commands issued are those of `list` |
| Listing.ListWithOptsIgnoresOptions | ipset/ipset.go:369-375 | the option vector it builds is never the command that is run |
| Listing.ListAllSetNames | ipset/ipset.go:420-426 | issues `list -n`; on success the names are the separator-free tokens of the whole output, no header removed; a failure carries the output |
| Listing.ListAllSetNamesOfLines | ipset/ipset.go:420-426 | an output of one name per line gives back exactly those names |
| StatsParser.ReadUint | ipset/ipset.go:267-271 | success only for a decimal value within 64 bits, which is stored; on error the stored value is 0 or 2^64-1 and the error names the text |
| StatsParser.SpacedLabelsNeedSpace | ipset/ipset.go:262-276 | a field without a space can never be labelled `Size in memory` or `Number of entries` |
| StatsParser.FieldStep | ipset/ipset.go:255-277 | an unknown label changes nothing; a known label with fewer than three parts panics; `Type` sets only the type from the third part; `References`, `Size in memory` and `Number of entries` each store the parse of the third part in their own counter, leave the other counters alone and return that parse's outcome; only `References` changes the reference count; a failure is a parse error on the third part |
| StatsParser.FieldsStep | ipset/ipset.go:253-278 | a single field is read exactly as `FieldStep` reads it; with no known label the statistics are unchanged; with space-free fields size and entries never change; every reported error is a parse error |
| StatsParser.FieldsStepAppend | ipset/ipset.go:253-278 | the loop over `a + b` is the loop over `a` followed, unless it stopped, by the loop over `b` |
| StatsParser.StatsOfTerse | ipset/ipset.go:249-279 | an empty listing gives empty statistics and no error; size and entry counts are always 0; every error is a parse error |
| StatsParser.SplitOfTriple | ipset/ipset.go:255 | a field `label:index:value` with colon-free parts splits into exactly those three parts |
| StatsParser.ParseTypeAndReferences | ipset/ipset.go:259-271 | well-formed `Type` and `References` fields set the type and the reference count and nothing else |
| StatsParser.BadReferencesStopTheLoop | ipset/ipset.go:267-270 | an unparsable reference count ends the loop at once with a parse error, ignoring every later field |
| StatsParser.ShortTypeFieldPanics | ipset/ipset.go:260-261 | a `Type` field with no value part indexes past the end of the split |
| StatsParser.StatsReadOnlyFirstToken | ipset/ipset.go:253 | only the first listed token is read: listings that agree on it give the same statistics |
| StatsParser.StatsOfJoinedFields | ipset/ipset.go:253 | a first token made of fields joined by white space is read field by field |
| Version.FirstMatch | ipset/ipset.go:412-413 | the match found is the leftmost position where `v[0-9]+\.[0-9]+` matches; none is found exactly when it matches nowhere |
| Version.VersionToken | ipset/ipset.go:407-418 | a token has non-empty all-digit major and minor parts and is found exactly when a leftmost match exists |
| Version.VersionTokenIffMatch | ipset/ipset.go:412-416 | a token is found exactly when `v[0-9]+\.[0-9]+` matches somewhere in the output |
| Version.SemverOf | ipset/ipset.go:394-400 | `X.Y.0` parses exactly when both numbers fit in a signed 64-bit integer, and then has patch 0 |
| Version.SupportedVersion | ipset/ipset.go:384-405 | the check fails exactly when the tool fails, no version is printed, or a number overflows; it reports unsupported exactly when the printed major version is below 6 |
| Version.MajorDecides | ipset/ipset.go:385-403 | for a version with patch 0, being below 6.0.0 is the same as having major version below 6 |
| Version.VersionOfShortReply | ipset/ipset.go:389-417 | a reply `vX.Y` yields the token `X`, `Y` |
| Version.SupportedShortReply | ipset/ipset.go:384-405 | a reply `vX.Y` with single digits is supported exactly when `X >= 6` |
| Version.KnownVersions | ipset/ipset.go:384-405 | `v5.9` is unsupported, `v6.0` and `v7.2` are supported |
| Version.VersionTokenOfPrinted | ipset/ipset.go:407-418 | in any output whose text before the version has no `v`, the token read is exactly the printed major and minor digits |
| Version.SupportedIffMajorAtLeastSix | ipset/ipset.go:384-405 | for any printed version `vM.N`, the tool is supported exactly when `M >= 6` |
| Version.NoVersionIsAnError | ipset/ipset.go:407-416 | a failed run, or an output with no `v` at all, makes the version check fail |
| Gate.InitCheck | ipset/ipset.go:69-95 | with a stored path nothing is run and the result is success; an unresolvable name leaves the path unset and reports not found; otherwise the path is stored, `--version` is run once, and the result is not-supported exactly when the version check says unsupported |
| Gate.CheckNameCases | ipset/ipset.go:73-77 | no name or one empty name looks up `ipset`; otherwise the first name is looked up |
| Gate.GateIsSticky | ipset/ipset.go:71-94 | once a lookup succeeds, a second call runs nothing and succeeds |
| Gate.UnsupportedThenAccepted | ipset/ipset.go:83-92 | a rejected version is reported once and the next call succeeds, because the path was stored first |
| Gate.NotFoundRetries | ipset/ipset.go:79-82 | a failed lookup stores nothing, so the next call looks again |
| Ipset.CreateArgvCarriesShape | ipset/ipset.go:101-102 | the create command carries the whole shape: reading it back gives the handle, named after the set being created |
| Ipset.AddOptionInsertsOneWord | ipset/ipset.go:199-209 | the option variant of add is the plain add with one word inserted after the entry, and the timeout reads back as given |
| Ipset.Defaulted | ipset/ipset.go:124-135 | exactly the zero or empty fields take the ipset defaults 1024, 65536 and `inet`; the timeout is never defaulted |
| Ipset.CreateHashSet | ipset/ipset.go:97-113 | one create command for the given name and shape; success exactly when the tool succeeds, and the error carries the output |
| Ipset.New | ipset/ipset.go:123-152 | the caller's parameters are defaulted even on error; a type without `hash:` fails before any command and leaves the gate alone; otherwise the gate is the one `initCheck` leaves; a gate failure is returned; once the gate passes, exactly one create with the defaulted shape follows, New succeeds exactly when that create succeeds and otherwise returns its error with the output; a handle has the defaulted shape |
| Ipset.NewRefusesNonHashTypes | ipset/ipset.go:137-140 | a non-hash type issues nothing, leaves the gate unchanged and is an error |
| Ipset.NewWithDefaults | ipset/ipset.go:123-151 | with zero parameters and a resolved gate, the one command issued is the create with hash size 1024, max elements 65536 and family `inet`, and New succeeds exactly when it does |
| Ipset.Init | ipset/ipset.go:69-118 | with a stored path nothing is run and the result is success; an unresolvable name (`ipset` for the empty name) leaves the gate unset and reports not found; otherwise the path is stored, `--version` is run once, and the result is not-supported exactly when the version check says unsupported, success otherwise |
| Ipset.Add | ipset/ipset.go:198-204 | one `add <set> <entry> timeout <t> -exist`; success exactly when the tool succeeds |
| Ipset.AddOption | ipset/ipset.go:208-214 | one `add <set> <entry> <option> timeout <t> -exist`; success exactly when the tool succeeds |
| Ipset.Del | ipset/ipset.go:217-223 | one `del <set> <entry> -exist`; success exactly when the tool succeeds |
| Ipset.Flush | ipset/ipset.go:226-232 | one `flush <set>`; success exactly when the tool succeeds |
| Ipset.Destroy | ipset/ipset.go:283-289 | one `destroy <set>`; success exactly when the tool succeeds, with no tolerance for a missing set |
| Ipset.Swap | ipset/ipset.go:342-348 | one `swap <from> <to>`; success exactly when the tool succeeds |
| Ipset.DestroyIPSet | ipset/ipset.go:350-356 | one `destroy <name>`; success exactly when the tool succeeds or its output says `does not exist` |
| Ipset.Test | ipset/ipset.go:180-194 | one `test <set> <entry>`; never both present and failed; failed exactly when the tool fails; after a successful run the entry is present exactly when the output lacks `NOT` |
| Ipset.SetList | ipset/ipset.go:235-237 | one `list <set>`; a token list exactly when the tool succeeds, holding the tokens of the output after the header, each separator-free; a failure carries the output |
| Ipset.ListTerse | ipset/ipset.go:240-242 | identical to `List`: the `-t` option never reaches the tool |
| Ipset.SetStatistics | ipset/ipset.go:244-251 | one `list <set>`; a listing error is returned with empty statistics; a successful listing is handed to the parser as its tokens after the header; size and entry counts are 0 in every returned result; an empty listing gives empty statistics and no error |
| Ipset.StatisticsOfEmptySet | ipset/ipset.go:244-251 | an empty set's listing (header and `Members:` only) gives no statistics at all, not even its type |
| Ipset.AddEach | ipset/ipset.go:162-167 | one `add <temp> <entry> -exist` per entry, in order, whatever the tool replies |
| Ipset.Refresh | ipset/ipset.go:156-177 | the commands are a prefix of create-temporary, adds, swap, destroy; it succeeds exactly when the create and the swap succeed and the destroy succeeds or finds the set missing, whatever the adds answered; it stops after the create exactly when the create fails, after the swap exactly when the create succeeds and the swap fails, and otherwise runs every command; a failure is the last command's |
| Ipset.SwapThenDestroy | ipset/ipset.go:168-176 | the swap is always issued and the destroy only after a successful swap; it succeeds exactly when the swap succeeds and the destroy succeeds or finds the set missing; a failure is the last command's, with its output |
| Ipset.RefreshIgnoresAddReplies | ipset/ipset.go:162-167 | tools that differ only in how they answer adds lead to the same commands and the same result |
| Ipset.WithPrefix | ipset/ipset.go:320-321 | a name is kept exactly when it is listed and starts with the prefix |
| Ipset.WithPrefixAppend | ipset/ipset.go:319-321 | filtering a concatenation of listings filters each part in turn |
| Ipset.WithPrefixKeepsOrder | ipset/ipset.go:319-321 | the names are kept in their listed order and with their multiplicity: one name is kept exactly when it has the prefix, and a concatenation is filtered part by part |
| Ipset.DestroyEach | ipset/ipset.go:320-326 | one destroy per name in order, never stopping early; there are no failures exactly when every destroy succeeded or found the set missing; every failure names a listed set; for a single name the failures are exactly that destroy's failure |
| Ipset.DestroyFailure | ipset/ipset.go:322-324 | a destroy contributes no failure exactly when it succeeded or found the set missing, and otherwise exactly one: the name with the failed destroy command and its output |
| Ipset.FailuresAppend | ipset/ipset.go:320-326 | the failures collected over two name lists in turn are those of the first followed by those of the second, run after the first's destroys |
| Ipset.DestroyEachAppend | ipset/ipset.go:320-326 | running the loop over `a + b` is running it over `a` and then over `b` from where `a` left off, with the failures concatenated in order; with the single-name clause of `DestroyEach` this pins the failures to exactly the non-tolerated destroys, in order, each with its command and output |
| Ipset.FailuresEmptyIff | ipset/ipset.go:320-330 | the loop collects no failure exactly when every destroy it issued was tolerated |
| Ipset.DestroyAll | ipset/ipset.go:306-339 | the gate's verdict is ignored; an empty prefix issues one bare `destroy` and a failure of it is that command's run error; otherwise `list -n` then one destroy for each listed name with the prefix, in order, succeeding exactly when every destroy was tolerated; a listing failure stops it and carries the listing's output; otherwise a failure aggregates exactly the loop's failures, each naming a set with the prefix |
| Ipset.DestroyAllIgnoresGate | ipset/ipset.go:306-308 | even when no binary is found, commands are still issued |
| Kernel.AddsFill | ipset/ipset.go:162-167 | against the kernel, the adds leave the temporary set holding its old members and every entry |
| Kernel.RefreshReplacesMembers | ipset/ipset.go:154-177 | against the kernel, with the set present and no temporary set, `Refresh` succeeds, the set's members become exactly the given entries, every other set is unchanged and no temporary set remains |
| Kernel.RefreshMergesLeftover | ipset/ipset.go:97-177 | against the kernel, `Refresh` of an existing set succeeds even when a temporary set is left over; the set then holds the entries together with the leftover set's members, every other set is unchanged and no temporary set remains |
| Kernel.StaleTempLeaks | ipset/ipset.go:154-177 | with the set holding `x` and its temporary set holding `stale`, refreshing it with `y` succeeds and leaves it holding `stale` and `y` |
| Kernel.MissingSetMessageIsTolerated | ipset/ipset.go:352 | the tool's missing-set message contains `does not exist` |
| Kernel.AddThenDelRestores | ipset/ipset.go:198-223 | against the kernel, `Add` of a new member adds exactly that member, and `Del` of it restores every set |
| Kernel.AddOptionAdds | ipset/ipset.go:208-214 | against the kernel, the option form of add changes the sets exactly as `Add` does |
| Kernel.FlushEmpties | ipset/ipset.go:226-232 | against the kernel, `Flush` succeeds, empties the set and leaves every other set alone |
| Kernel.SwapTwiceRestores | ipset/ipset.go:341-348 | against the kernel, `Swap` exchanges the two sets' members, and swapping again restores every set |
| Kernel.DestroyRemoves | ipset/ipset.go:282-289 | against the kernel, `Destroy` of an existing set succeeds and removes exactly that set |
| Kernel.DestroyIPSetRemoves | ipset/ipset.go:350-356 | against the kernel, `destroyIPSet` always succeeds and the set is absent afterwards |
| Kernel.FailuresAgainstKernel | ipset/ipset.go:320-326 | against the kernel, from any earlier history, every destroy of the loop is tolerated and the named sets, and only they, are gone afterwards |
| Kernel.DestroyEachRemovesNamed | ipset/ipset.go:319-326 | against the kernel, the destroy loop of `DestroyAll` reports no failure and removes exactly the named sets |
| Kernel.DestroyIPSetIdempotent | ipset/ipset.go:350-356 | against the kernel, `destroyIPSet` removes the set and a second call still succeeds, while `Destroy` on the missing set fails |

## Left out

- Process execution (`exec.Command`, `CombinedOutput`, `Run`) and `exec.LookPath` are parameters: the tool oracle and the lookup function. What the tool answers when the path is still unset (as in `DestroyAll` after a failed lookup) is left to the oracle.
- The kernel's own behaviour is not part of the package; `Kernel` is a reference model that gives the package's commands a meaning to prove them against. It lets `create -exist` keep an existing set without comparing shapes, ignores entry timeouts and add options, does not model `test` or `list`, and answers every command it does not model with success.
- Logging (`log.Warnf`, `log.Errorf`) has no observable effect on results and is left out.
- Error messages are structured values (`Exec.Error`) rather than formatted strings; `DestroyAll`'s combined message becomes the list of failing names with their errors, and its "all"/"prefix" wording is not modelled.
- The package-level `ipsetPath` is unsynchronised shared state; the model threads it as an explicit `Gate` value and does not model concurrent callers.
- The regular-expression engine is not modelled; the two patterns are modelled by the languages they match and the match they pick.
- Numbers.ParseUint: decimal only; the base prefixes `0x`, `0o`, `0b`, a leading `0` for octal and `_` separators that base 0 accepts are not modelled, because the listing prints plain decimal counts.
- Version.SemverOf: only the shape `X.Y.0` that the version matcher can produce is parsed; pre-release and build-metadata parsing of the semver library is never reached and is left out.
- Ipset.Test: the error branch for a failing `regexp.Compile("NOT")` is dead code (the pattern is constant) and is not modelled.
- Ipset.New: returns the handle itself rather than an `*IPSet`; the caller's `Params` after defaulting is returned alongside instead of being mutated. A nil `*Params` makes the Go function panic; the model has no nil parameters, so that path is not modelled.
- A Go panic in `Statistics` is modelled as the outcome `IndexPanic`; recovery by callers is not modelled.
