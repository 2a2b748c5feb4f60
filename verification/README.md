# windns: a Dafny model of the Windows DNS provider's core

The Terraform provider `windns` manages DNS "A" records on a Windows DNS
server. It runs PowerShell scripts over a Kerberos-authenticated WinRM
session. This project models its core:

- **Client construction** (`windns/windns.go`, module `Windns`). How
  `NewClient` resolves the WinRM port, the host, the timeout and the KDC
  list. The session library itself is a parameter.
- **The A-record facade** (`windns/a_record.go`, modules `ARecord` and
  `Scripts`).
  - `ARecord` models the four client operations: Read, Add, Update and
    Delete. Each validates its options, applies defaults and runs its
    script. It then turns the runner's failure, a non-zero exit status or
    an undecodable output into an error. Any decoded envelope is returned
    as is.
  - `Scripts` models the decisions of the four embedded scripts once they
    have looked up the name: the envelope each prints (200, 400, 404 or
    500) and the change each asks the server to make.
- **Error texts** (module `Errors`): the errors the client and the resource
  return, and the text each prints.
- **Address identity** (`internal/provider/hash_ip_string.go`, modules
  `IpHash` and `AddressSet`).
  - `hashcodeString` is a CRC-32 checksum clamped to a non-negative Go
    `int`. The width of `int` is explicit.
  - `hashIPString` hashes the canonical form of an address when it parses
    as an IP address.
  - The resource's `addresses` attribute is a set keyed by that hash.
- **Name checks** (`internal/provider/validators.go`, module `Validators`):
  `IsFqdn`, `validateZone` and `validateName`.
- **Provider configuration** (`internal/provider/provider.go`, module
  `Provider`): how `configureProvider` maps attributes onto client options,
  and `resourceFQDN`.
- **The record-set lifecycle**
  (`internal/provider/resource_windns_a_record_set.go`, module `RecordSet`).
  - Create, Read, Update and Delete, each as the sequence of client calls
    it makes.
  - Each stops at the first call that fails.
  - The client is an oracle. It answers each call knowing the calls the
    same operation made before it.
  - `Through` builds such an oracle from the facade.

The foreign parts are function-typed parameters:

- the WinRM runner
- the JSON decoder
- CRC-32
- `net.ParseIP` followed by `String`
- `strings.TrimSpace`
- template escaping
- the order in which a set lists its members

Three behaviours of the code worth knowing:

- `NewClient` never rejects an empty host. Only the session library can fail.
- Two addresses are the same member when their hashes are equal, so a hash
  collision merges two addresses.
- Update removes and adds addresses in the set's own listing order, which
  the model leaves as a parameter.

## Model

| member | source | states |
|---|---|---|
| Windns.ResolvedPort | windns/windns.go:59-65 | the port used is never zero |
| Windns.ResolvedTimeout | windns/windns.go:72-75 | the timeout used is always positive |
| Windns.ResolvedKdcs | windns/windns.go:77-80 | the KDC list used is never empty |
| Windns.ConnectHost | windns/windns.go:67-70 | the session connects to the proxy host when one is set, otherwise to the DNS server; the host is empty only when both are |
| Windns.NewClient | windns/windns.go:55-114 | port 0 means 5985, or 5986 with TLS, and any other port is kept; the proxy host wins over the DNS server; a non-positive timeout means 60 seconds, shared by WinRM and Kerberos; an empty KDC list means the DNS server itself; credentials and flags pass through; construction fails exactly when the session library fails |
| Windns.DefaultsAreFixedPoint | windns/windns.go:59-80 | writing the resolved defaults into the options changes neither the endpoint nor the Kerberos transport |
| Errors.Decimal | windns/a_record.go:72 | `%d` text: digits only, with a leading minus exactly for negative numbers |
| Errors.Message | windns/a_record.go:52-55 | a missing-field text carries the field's name; an update error's text ends with its cause's text (resource_windns_a_record_set.go lines 55 and 146 give the others) |
| Errors.MissingMessageNamesField | windns/a_record.go:52-55 | two missing-field texts are equal only for the same field |
| Errors.UpdatingMessageKeepsCause | internal/provider/resource_windns_a_record_set.go:146 | two update errors print alike exactly when their causes do |
| Errors.DigitsInjective | windns/a_record.go:72 | distinct naturals print distinct digit strings |
| Errors.DecimalInjective | windns/a_record.go:72 | distinct integers print distinctly |
| Errors.ExitMessageDeterminesCodeAndStderr | windns/a_record.go:72 | two exit-status error texts are equal only when the exit codes and the captured standard errors are |
| ARecord.FirstMissing | windns/a_record.go:84-93 | the first empty required field is reported, and nothing when every field is set |
| ARecord.Validate | windns/a_record.go:50-171 | a request is valid exactly when the name, the zone and (except for Read) the address are set; Add checks the address before the zone, Read, Update and Delete check the zone before the address |
| ARecord.ValidateReportsFirstMissing | windns/a_record.go:84-93 | validation reports exactly the first empty field of the operation's required list |
| ARecord.Prepare | windns/a_record.go:95-99 | the script always sees the client's DNS server; an Add TTL below 1 becomes 300; names, zones, addresses and Update's TTL are untouched |
| ARecord.PrepareIdempotent | windns/a_record.go:95-99 | preparing twice is preparing once |
| ARecord.Execute | windns/a_record.go:50-196 | an invalid request fails before anything runs; a runner failure, a non-zero exit (with its code and standard error) and an undecodable output are errors; otherwise the decoded envelope is returned |
| ARecord.InvalidNeverRuns | windns/a_record.go:50-57 | an invalid request gets the same missing-field error whatever the runner does |
| ARecord.OnlyPreparedOptionsReachRunner | windns/a_record.go:58-68 | requests that prepare alike get the same answer, so the caller's own DNS server field is irrelevant |
| ARecord.EnvelopeCodeIsNotAnError | windns/a_record.go:68-80 | with a zero exit status the envelope is a success whatever code it carries |
| Scripts.WithAddress | windns/a_record.go:459-461 | exactly the looked-up records holding the address, each as many times as the lookup lists it; the first kept is the first record holding it |
| Scripts.FirstWithUnique | windns/a_record.go:459-461 | the first record holding an address is unique |
| Scripts.AsRecords | windns/a_record.go:490-497 | one envelope record per stored record, field by field |
| Scripts.ReadScript | windns/a_record.go:199-252 | lookup miss is 404, any other lookup error is 500, otherwise 200 listing the records with the requested address, each once per stored record and in lookup order (every record when none is given) |
| Scripts.AddScript | windns/a_record.go:254-335 | lookup error other than a miss is 500; 400 "record already exists" exactly when a record with the address exists; otherwise it creates the record with the requested TTL and flags and echoes it with 200 |
| Scripts.AddAfterLookup | windns/a_record.go:281-294 | after the lookup, the conflict answer is given exactly when a matching record exists |
| Scripts.UpdateScript | windns/a_record.go:337-425 | 404 exactly on a lookup miss or when no record holds the address; whenever one does, it replaces the first such record, changing the TTL only when the requested one is positive and the address only when a new one is given |
| Scripts.DeleteScript | windns/a_record.go:427-506 | 404 exactly on a lookup miss or when no record holds the address; whenever one does, it removes every record holding it and echoes the first with 200 |
| Scripts.FinishAsWritten | windns/a_record.go:309-317 | as written, an attempted change always prints the success envelope |
| Scripts.Finish | windns/a_record.go:309-317 | as intended, a failed change prints 500 with the failure's message, and 200 means the change went through |
| Scripts.FailedCreationReportedAsCreated | windns/a_record.go:309-317 | an add whose creation fails with "Access denied" is reported as created by the script as written, and as a 500 by the corrected one |
| Scripts.SuccessMeansApplied | windns/a_record.go:399-407 | with the corrected ending, a 200 from a mutating script implies a change was attempted and succeeded |
| Scripts.EndingsAgreeWithoutFailure | windns/a_record.go:480-488 | the two endings differ exactly when a change was attempted and failed |
| IpHash.Wrap | internal/provider/hash_ip_string.go:18 | conversion to a Go `int` of the given width: the value is in range, and unchanged when it already fits |
| IpHash.HashcodeString | internal/provider/hash_ip_string.go:17-27 | the hash is never negative: the converted checksum, its negation when negative, and 0 for the minimum `int` |
| IpHash.Word64HashIsChecksum | internal/provider/hash_ip_string.go:17-27 | with 64-bit `int` the hash is the checksum itself |
| IpHash.Word32HashFolds | internal/provider/hash_ip_string.go:17-27 | with 32-bit `int`, checksums from 2^31 up fold to 2^32 minus the checksum, and exactly 2^31 gives 0 |
| IpHash.HashText | internal/provider/hash_ip_string.go:44-48 | the canonical form when the address parses, the text itself otherwise |
| IpHash.HashIpString | internal/provider/hash_ip_string.go:42-49 | non-negative, and the hash of the canonical form exactly when the address parses |
| IpHash.SameCanonicalFormSameHash | internal/provider/hash_ip_string.go:42-49 | two spellings of one IP address hash alike |
| AddressSet.Insert | internal/provider/resource_windns_a_record_set.go:104-106 | adding keeps every existing member and adds the address only when its key is new |
| AddressSet.FromList | internal/provider/resource_windns_a_record_set.go:104-106 | the set built from a list has exactly the list's keys, each member under its own key and drawn from the list |
| AddressSet.FromListKeepsFirst | internal/provider/resource_windns_a_record_set.go:104-106 | under each key the set keeps the first address added with it |
| AddressSet.Difference | internal/provider/resource_windns_a_record_set.go:134-135 | the members whose key the other set lacks |
| AddressSet.Reconcile | internal/provider/resource_windns_a_record_set.go:130-135 | remove is old minus new and add is new minus old, disjoint from what they must not touch, and together they turn the old keys into the new |
| AddressSet.ReconcileReachesNew | internal/provider/resource_windns_a_record_set.go:130-167 | carrying out the plan on the old set yields exactly the new set's keys, with new members from the new set and survivors unchanged |
| AddressSet.ReconcileSelfIsEmpty | internal/provider/resource_windns_a_record_set.go:130-135 | reconciling a set with itself plans nothing |
| AddressSet.SameKeysPlanNothing | internal/provider/resource_windns_a_record_set.go:130-135 | sets with the same keys plan no removal and no addition even when spelled differently |
| Validators.TrailingBackslashes | internal/provider/validators.go:18-24 | the count of backslashes a text ends with, and the character before them is not one |
| Validators.IsFqdnAsWritten | internal/provider/validators.go:12-25 | as the source computes it: only a text ending in a dot can qualify |
| Validators.IsFqdn | internal/provider/validators.go:11-25 | fully qualified exactly when the text ends in a dot preceded by an even number of backslashes |
| Validators.PlainDotQualifies | internal/provider/validators.go:22-24 | a dot after a non-backslash always qualifies |
| Validators.BackslashFlips | internal/provider/validators.go:22-24 | one more backslash before the dot flips the answer |
| Validators.IsFqdnExamples | internal/provider/validators.go:12-25 | ".", "example.com." and an escaped backslash before a dot qualify; an escaped dot, a missing dot and the empty text do not |
| Validators.Utf8Len | internal/provider/validators.go:24 | a character takes one to four bytes, a dot or a backslash one |
| Validators.ByteLen | internal/provider/validators.go:24 | a text takes at least as many bytes as it has characters |
| Validators.LastNonBackslash | internal/provider/validators.go:18-20 | the byte offset found lies before the end of the text, or is -1 |
| Validators.TrimDot | internal/provider/validators.go:13-16 | the text is unchanged exactly when it does not end with a dot |
| Validators.ByteDistance | internal/provider/validators.go:18-24 | the source's byte distance is the trailing backslash count plus the width of the character before them |
| Validators.AsWrittenAgreesOnOddWidths | internal/provider/validators.go:12-25 | the source agrees with the intent whenever the character before the backslashes takes an odd number of bytes |
| Validators.AsWrittenRejectsTwoByteLetter | internal/provider/validators.go:12-25 | "é." is fully qualified, yet the source answers that it is not |
| Validators.AsWrittenAgreesOnAscii | internal/provider/validators.go:12-25 | on ASCII text the source's check and the intended one agree |
| Validators.ValidateZone | internal/provider/validators.go:27-36 | with the corrected check: no warnings; the whitespace error exactly when trimming changes the zone, the qualification error exactly when it is not fully qualified, in that order |
| Validators.ValidateName | internal/provider/validators.go:38-47 | with the corrected check: no warnings; the blank error exactly when the name is empty or trimming changes it, the qualification error exactly when it is fully qualified, in that order |
| Validators.ValidatorsFollowSourceOnAscii | internal/provider/validators.go:27-47 | on ASCII values both validators report the qualification error exactly when the source's check makes them |
| Validators.ValidatorsDifferOnTwoByteLetter | internal/provider/validators.go:27-47 | for "é." the zone validator here omits the error the source reports, and the name validator reports one the source does not |
| Provider.ConfigureOptions | internal/provider/provider.go:86-117 | required attributes pass through; port, timeout, krb5 configuration and proxy host are set only when present and non-zero; a given KDC list is copied |
| Provider.CopyList | internal/provider/provider.go:112-117 | the appended KDC list equals the given one element by element |
| Provider.ConfigureProvider | internal/provider/provider.go:86-120 | the client is built from the mapped options and fails exactly when the session library does |
| Provider.LeftOutAttributesGetDefaults | internal/provider/provider.go:96-119 | attributes left out get the client's defaults: the transport's port, 60 seconds, the DNS server as host and as the only KDC |
| Provider.ResourceFqdn | internal/provider/provider.go:189-198 | the zone alone without a name, otherwise the name, a dot, then the zone; it always ends with the zone |
| Validators.TrailingAfterDot | internal/provider/validators.go:18-24 | what precedes a dot cannot change the backslashes that follow it |
| Validators.QualifiedAfterDot | internal/provider/validators.go:12-25 | whatever precedes a dot does not decide whether the text after it is fully qualified |
| Provider.FqdnQualifiedIffZoneIs | internal/provider/provider.go:189-198 | a record set's identifier is fully qualified exactly when its zone is |
| RecordSet.Judge | internal/provider/resource_windns_a_record_set.go:72-78 | a call succeeds exactly when the client answers without error and with code 200 |
| RecordSet.Adds | internal/provider/resource_windns_a_record_set.go:65-71 | one add per address, in listing order, with the resource's name, zone and TTL |
| RecordSet.Deletes | internal/provider/resource_windns_a_record_set.go:183-188 | one delete per address, in listing order, with the resource's name and zone |
| RecordSet.Issue | internal/provider/resource_windns_a_record_set.go:65-79 | the calls made are a prefix of those planned, all of them when nothing fails |
| RecordSet.AcceptedTail | internal/provider/resource_windns_a_record_set.go:65-79 | accepting a run of calls is accepting the first, then the rest after it |
| RecordSet.IssueCompletes | internal/provider/resource_windns_a_record_set.go:65-79 | when every call is accepted, every call is made and no failure is reported |
| RecordSet.IssueStopsAtFirstFailure | internal/provider/resource_windns_a_record_set.go:65-79 | the loop ends right after the first refused call, reporting that call's failure |
| RecordSet.MinTtl | internal/provider/resource_windns_a_record_set.go:103-112 | the smallest TTL: at most every record's, and equal to one of them |
| RecordSet.DataOf | internal/provider/resource_windns_a_record_set.go:105-106 | each record's address, in order |
| RecordSet.ReadAfter | internal/provider/resource_windns_a_record_set.go:84-118 | one read; a client error or a code other than 200 clears the identifier and is returned; a 200 without records clears it without error |
| RecordSet.ReadRefreshes | internal/provider/resource_windns_a_record_set.go:102-112 | a 200 with records keeps the identifier, sets the addresses to one member per distinct key among the records and the TTL to their smallest |
| RecordSet.Read | internal/provider/resource_windns_a_record_set.go:84-118 | without a client it fails with "client not created"; otherwise it makes exactly one read and its outcome is that read's: success exactly on a 200 reply, and any failure clears the identifier |
| RecordSet.Create | internal/provider/resource_windns_a_record_set.go:53-82 | without a client nothing is called; otherwise the adds then the read, cut short by a failure that clears the identifier; success leaves the name-dot-zone identifier or, if the read found nothing, none |
| RecordSet.CreateAddsThenReads | internal/provider/resource_windns_a_record_set.go:58-81 | when every add is accepted, Create is the read that follows all the adds under the new identifier |
| RecordSet.CreateStopsAtFirstFailure | internal/provider/resource_windns_a_record_set.go:65-79 | the first refused add ends Create: later addresses are not tried, nothing is read, the identifier is cleared, the failure returned |
| RecordSet.Update | internal/provider/resource_windns_a_record_set.go:120-171 | an unchanged set only reads; a changed one deletes what left, adds what joined, then reads, cut short by a failure that clears the identifier |
| RecordSet.UpdateCallsOrdered | internal/provider/resource_windns_a_record_set.go:130-167 | in an update's calls every delete precedes every add, the read is last, and every call names the resource's record and zone |
| RecordSet.UpdateDeletesBeforeAdding | internal/provider/resource_windns_a_record_set.go:130-170 | whatever the client answers, Update never adds before it has finished deleting and reads only at the end |
| RecordSet.SameKeysOnlyReread | internal/provider/resource_windns_a_record_set.go:130-135 | a set changed only in the spelling of its members leads to no delete and no add |
| RecordSet.ListedKeys | internal/provider/resource_windns_a_record_set.go:134-135 | calls naming a list's addresses name exactly the list's keys |
| RecordSet.KeysOfUpdateCalls | internal/provider/resource_windns_a_record_set.go:137-167 | in deletes, adds and a read, the deleted keys are the deletes' and the added keys the adds' |
| RecordSet.UpdateCallsFollowReconcile | internal/provider/resource_windns_a_record_set.go:130-167 | an update deletes exactly the keys that left and adds exactly the keys that joined, every add with the resource's TTL |
| RecordSet.UpdateFollowsReconcile | internal/provider/resource_windns_a_record_set.go:130-170 | a successful update of a changed set deletes exactly the keys that left and adds exactly those that joined |
| RecordSet.UnchangedUpdateOnlyReads | internal/provider/resource_windns_a_record_set.go:128-170 | an update that leaves the address set as it was is just the read back |
| RecordSet.UpdateAddsThenReads | internal/provider/resource_windns_a_record_set.go:137-170 | when every delete and add is accepted, Update is the read that follows them all |
| RecordSet.UpdateStopsAtFirstFailedDelete | internal/provider/resource_windns_a_record_set.go:138-151 | the first refused delete ends Update: nothing is added or read, the identifier is cleared, a client error comes back wrapped as an update error |
| RecordSet.UpdateStopsAtFirstFailedAdd | internal/provider/resource_windns_a_record_set.go:153-166 | once every delete went through, the first refused add ends Update: later adds are not tried, nothing is read, the identifier is cleared, a client error comes back wrapped as an update error |
| RecordSet.Delete | internal/provider/resource_windns_a_record_set.go:173-199 | the deletes, cut short by a failure that clears the identifier; success leaves the state untouched |
| RecordSet.DeletesCoverKeys | internal/provider/resource_windns_a_record_set.go:181-188 | the deletes built from a listing name exactly the listing's keys, each under the record's name and zone |
| RecordSet.DeleteRemovesEveryMember | internal/provider/resource_windns_a_record_set.go:181-196 | a successful delete removes one address per member, covering every key, under the resource's name and zone |
| RecordSet.DeleteStopsAtFirstFailure | internal/provider/resource_windns_a_record_set.go:183-196 | the first refused delete ends Delete, clearing the identifier and returning the failure |
| RecordSet.Through | windns/a_record.go:50-196 | the facade as the lifecycle's client: an invalid call is refused with its missing-field error, and a call succeeds only when it is valid and its script exits with status 0 |
| RecordSet.UnnamedRecordSetIsNeverCreated | windns/a_record.go:85-87 | through the facade, a record set without a name fails with the missing-name error on its first call, whatever the runner does |

## Left out

- The WinRM and Kerberos session (`winrm.NewClientWithParameters` and the
  transport decorator): a `connect` parameter stands for it. The global
  `winrm.DefaultParameters` it mutates is not modelled.
- The timeout's conversion to nanoseconds (`timeout * time.Second`) can
  overflow for huge values. The model keeps seconds as unbounded integers.
- Running a script, JSON decoding, CRC-32, `net.ParseIP`/`String`,
  `strings.TrimSpace`: all parameters.
- Template rendering: `esc` stands for the text a value becomes inside the
  script. A template execution error is not modelled.
- `Record.Data` is an `interface{}` in the source. The model takes it to be
  the address text.
- PowerShell details:
  - string comparison is case-insensitive
  - `[ipaddress]` re-parses a new address
  - `$Error` is shared across the session
  - a lookup that yields no records and no error counts as `Found([])`

  The scripts compare escaped texts exactly.
- Scripts.UpdateScript: when several records hold the address, the model
  replaces the first. The source hands the whole collection to
  `Set-DnsServerResourceRecord`.
- Scripts.DeleteScript: when several records hold the address, the model
  echoes the first. The source builds its one echoed record from the whole
  collection, so each field holds the values of all matching records.
- Validators.ValidateZone: uses the corrected `IsFqdn`. For a zone whose
  final dot follows a character of even UTF-8 width, such as "é.", it omits
  the "must be fully qualified" error the source reports. On ASCII values
  it reports what the source does (`ValidatorsFollowSourceOnAscii`).
- Validators.ValidateName: uses the corrected `IsFqdn`. For a name such as
  "é." it reports "must not be fully qualified" where the source accepts
  the name. On ASCII values it reports what the source does.
- Scripts.ScriptStep is not connected to `ARecord.Execute`: the runner stays
  abstract, so the two halves of a call are modelled separately.
- `fmt.Errorf(rsp.Detail)` treats the detail as a format string. The model
  returns the detail verbatim as `Rejected`.
- The order of `schema.Set.List` is a parameter. Lemmas that depend on it
  require only that it lists the set.
- Terraform's own handling is not modelled: the schema default TTL of 3600,
  `ForceNew`, and clearing the identifier after a successful Delete. The TTL
  is an input of the resource state.
- `HasChange("addresses")` is modelled as inequality of the two sets' maps
  from hash to address.
- The commented-out importer (`resourceDnsImport`), `hashcodeStrings` and
  `main.go` are not part of this model.

## Findings

| source | as written | input that shows it | evidently intended | confidence | as-written member | corrected member |
|---|---|---|---|---|---|---|
| internal/provider/validators.go:18-24 | the parity test subtracts a byte offset from a byte length, so a character of even UTF-8 width before the dot flips the answer | `"é."` is reported as not fully qualified | a name ending in a dot preceded by an even number of backslashes is fully qualified | not executed | Validators.AsWrittenRejectsTwoByteLetter | Validators.IsFqdn |
| windns/a_record.go:310 | after the change the add script tests `$Errors`, a variable never assigned, instead of `$Error`; the update (400) and delete (481) scripts do the same | an add whose `Add-DnsServerResourceRecord` fails with "Access denied" answers 200 "record created" | a failed change answers 500 with the error message | not executed | Scripts.FailedCreationReportedAsCreated | Scripts.Finish |
