/** The decisions the four embedded PowerShell scripts make once they have
    looked up the records of a name in a zone: which envelope they print and
    which change they ask the DNS server to make.

    Option values reach a script through text substitution; `esc` is the
    text a value becomes once substituted into the script. */
module Scripts {
  import opened Wrappers
  import opened Windns
  import opened ARecord

  /** An address record the DNS server holds. */
  datatype Stored = Stored(hostName: string, address: string, ttl: int)

  /** What the lookup of the name in the zone reports. */
  datatype Lookup =
    | NotFound                        // the lookup failed with category ObjectNotFound
    | LookupFailed(message: string)   // the lookup failed in any other way
    | Found(records: seq<Stored>)

  /** A change a script asks the DNS server to make. */
  datatype Effect =
    | Create(record: Stored, allowUpdateAny: bool, createPtr: bool)
    | Replace(before: Stored, after: Stored)
    | Remove(records: seq<Stored>)

  /** Where a script stands after its lookup: it has its answer, or it is
      about to make a change and will answer `success` if that goes well. */
  datatype Step = Answer(rsp: Response) | Mutate(effect: Effect, success: Response)

  /** What a script prints, and the change it attempted on the way, if any. */
  datatype Printed = Printed(rsp: Response, attempted: Option<Effect>)

  const NotFoundResponse := Response(404, "record not found", [])

  function ServerError(message: string): Response {
    Response(500, message, [])
  }

  /** How a stored record appears in an envelope. */
  function AsRecord(s: Stored, zone: string): Record {
    Record("A", s.hostName, zone, s.address, s.ttl)
  }

  /** `st` is the first of `records` that holds `address`. */
  predicate FirstWith(records: seq<Stored>, address: string, st: Stored) {
    exists i :: 0 <= i < |records| && records[i] == st && st.address == address &&
                forall j :: 0 <= j < i ==> records[j].address != address
  }

  /** There is only one first record holding an address. */
  lemma FirstWithUnique(records: seq<Stored>, address: string, a: Stored, b: Stored)
    requires FirstWith(records, address, a) && FirstWith(records, address, b)
    ensures a == b
  {
    var i :| 0 <= i < |records| && records[i] == a && a.address == address &&
             forall j :: 0 <= j < i ==> records[j].address != address;
    var k :| 0 <= k < |records| && records[k] == b && b.address == address &&
             forall j :: 0 <= j < k ==> records[j].address != address;
    assert !(i < k) && !(k < i);
  }

  /** A first match past a record without the address is a first match of the whole. */
  lemma FirstWithSkips(records: seq<Stored>, address: string, st: Stored)
    requires |records| > 0 && records[0].address != address
    requires FirstWith(records[1..], address, st)
    ensures FirstWith(records, address, st)
  {
    var i :| 0 <= i < |records[1..]| && records[1..][i] == st && st.address == address &&
             forall j :: 0 <= j < i ==> records[1..][j].address != address;
    assert records[i + 1] == st;
    forall j | 0 <= j < i + 1 ensures records[j].address != address {
      if j > 0 { assert records[j] == records[1..][j - 1]; }
    }
  }

  /** The records holding `address`, in lookup order, each as often as the lookup lists it. */
  function WithAddress(records: seq<Stored>, address: string): (m: seq<Stored>)
    ensures |m| <= |records|
    ensures forall s :: s in m <==> s in records && s.address == address
    ensures |m| > 0 ==> FirstWith(records, address, m[0])
    ensures forall st :: multiset(m)[st] == if st.address == address then multiset(records)[st] else 0
  {
    if |records| == 0 then []
    else
      var rest := WithAddress(records[1..], address);
      assert records == [records[0]] + records[1..];
      assert multiset(records) == multiset([records[0]]) + multiset(records[1..]);
      if records[0].address == address then
        assert FirstWith(records, address, records[0]) by {
          assert records[0] == records[0];
        }
        assert multiset([records[0]] + rest) == multiset([records[0]]) + multiset(rest);
        [records[0]] + rest
      else
        assert |rest| > 0 ==> FirstWith(records, address, rest[0]) by {
          if |rest| > 0 {
            FirstWithSkips(records, address, rest[0]);
          }
        }
        rest
  }

  function AsRecords(records: seq<Stored>, zone: string): (rs: seq<Record>)
    ensures |rs| == |records|
    ensures forall i :: 0 <= i < |records| ==> rs[i] == AsRecord(records[i], zone)
  {
    seq(|records|, i requires 0 <= i < |records| => AsRecord(records[i], zone))
  }

  /** The read script: a lookup miss is 404, any other lookup error is 500,
      otherwise 200 with every record of the name whose address is the
      requested one, or every record when no address was given. */
  function ReadScript(o: ReadOptions, l: Lookup, esc: string -> string): (s: Step)
    ensures s.Answer?
    ensures l.NotFound? ==> s.rsp == NotFoundResponse
    ensures l.LookupFailed? ==> s.rsp == ServerError(l.message)
    ensures l.Found? ==> s.rsp.code == 200 && s.rsp.detail == "record found"
    ensures l.Found? ==> forall rec :: rec in s.rsp.records <==>
              exists st :: st in l.records && (esc(o.address) == "" || st.address == esc(o.address))
                           && rec == AsRecord(st, esc(o.zoneName))
    ensures l.Found? && esc(o.address) == "" ==> s.rsp.records == AsRecords(l.records, esc(o.zoneName))
    ensures l.Found? && esc(o.address) != "" ==>
              s.rsp.records == AsRecords(WithAddress(l.records, esc(o.address)), esc(o.zoneName))
  {
    match l
    case NotFound => Answer(NotFoundResponse)
    case LookupFailed(m) => Answer(ServerError(m))
    case Found(rs) =>
      var a := esc(o.address);
      var kept := if a == "" then rs else WithAddress(rs, a);
      var records := AsRecords(kept, esc(o.zoneName));
      assert forall rec :: rec in records <==> exists st :: st in kept && rec == AsRecord(st, esc(o.zoneName)) by {
        forall rec | rec in records ensures exists st :: st in kept && rec == AsRecord(st, esc(o.zoneName)) {
          var i :| 0 <= i < |records| && records[i] == rec;
          assert kept[i] in kept;
        }
      }
      Answer(Response(200, "record found", records))
  }

  /** The add script: 400 when a record with the address already exists,
      otherwise a creation that answers 200 echoing the one new record. */
  function AddScript(o: AddOptions, l: Lookup, esc: string -> string): (s: Step)
    ensures l.LookupFailed? ==> s == Answer(ServerError(l.message))
    ensures !l.LookupFailed? ==> (s == Answer(Response(400, "record already exists", [])) <==>
              l.Found? && exists st :: st in l.records && (esc(o.address) == "" || st.address == esc(o.address)))
    ensures s.Mutate? ==> !l.LookupFailed?
    ensures s.Mutate? ==> s.effect == Create(Stored(esc(o.name), esc(o.address), o.ttl), o.allowUpdateAny, o.createPtr)
    ensures s.Mutate? ==> s.success == Response(200, "record created",
                                                [Record("A", esc(o.name), esc(o.zoneName), esc(o.address), o.ttl)])
    ensures !l.LookupFailed? &&
            !(l.Found? && exists st :: st in l.records && (esc(o.address) == "" || st.address == esc(o.address))) ==>
              s.Mutate?
  {
    match l
    case LookupFailed(m) => Answer(ServerError(m))
    case NotFound => AddAfterLookup(o, [], esc)
    case Found(rs) => AddAfterLookup(o, rs, esc)
  }

  /** The add script once the lookup produced `rs`; a lookup miss counts as no records. */
  function AddAfterLookup(o: AddOptions, rs: seq<Stored>, esc: string -> string): (s: Step)
    ensures s == Answer(Response(400, "record already exists", [])) <==>
              exists st :: st in rs && (esc(o.address) == "" || st.address == esc(o.address))
  {
    var a := esc(o.address);
    var existing := if a == "" then rs else WithAddress(rs, a);
    if |existing| > 0 then
      assert existing[0] in rs;
      Answer(Response(400, "record already exists", []))
    else
      var created := Stored(esc(o.name), a, o.ttl);
      Mutate(Create(created, o.allowUpdateAny, o.createPtr),
             Response(200, "record created", [AsRecord(created, esc(o.zoneName))]))
  }

  /** The update script: 404 on a lookup miss and when no record has the
      address; otherwise it replaces the first such record, changing the TTL
      only when the requested one is positive and the address only when a new
      one is given. */
  function UpdateScript(o: UpdateOptions, l: Lookup, esc: string -> string): (s: Step)
    ensures l.LookupFailed? ==> s == Answer(ServerError(l.message))
    ensures s == Answer(NotFoundResponse) <==>
              l.NotFound? || (l.Found? && forall st :: st in l.records ==> st.address != esc(o.address))
    ensures s.Mutate? ==> l.Found? && s.effect.Replace? && s.effect.before in l.records
                          && s.effect.before.address == esc(o.address)
    ensures s.Mutate? ==> s.effect.after.hostName == s.effect.before.hostName
    ensures s.Mutate? ==> s.effect.after.ttl == if o.ttl > 0 then o.ttl else s.effect.before.ttl
    ensures s.Mutate? ==> s.effect.after.address == if esc(o.newAddress) != "" then esc(o.newAddress) else esc(o.address)
    ensures s.Mutate? ==> s.success == Response(200, "record updated", [AsRecord(s.effect.after, esc(o.zoneName))])
    ensures l.Found? && (exists st :: st in l.records && st.address == esc(o.address)) ==> s.Mutate?
    ensures s.Mutate? ==> FirstWith(l.records, esc(o.address), s.effect.before)
  {
    match l
    case NotFound => Answer(NotFoundResponse)
    case LookupFailed(m) => Answer(ServerError(m))
    case Found(rs) =>
      var matching := WithAddress(rs, esc(o.address));
      if |matching| == 0 then Answer(NotFoundResponse)
      else
        var before := matching[0];
        var after := Stored(before.hostName,
                          if esc(o.newAddress) != "" then esc(o.newAddress) else before.address,
                          if o.ttl > 0 then o.ttl else before.ttl);
        Mutate(Replace(before, after), Response(200, "record updated", [AsRecord(after, esc(o.zoneName))]))
  }

  /** The delete script: 404 on a lookup miss and when no record has the
      address; otherwise it removes every record with the address. */
  function DeleteScript(o: DeleteOptions, l: Lookup, esc: string -> string): (s: Step)
    ensures l.LookupFailed? ==> s == Answer(ServerError(l.message))
    ensures s == Answer(NotFoundResponse) <==>
              l.NotFound? || (l.Found? && forall st :: st in l.records ==> st.address != esc(o.address))
    ensures s.Mutate? ==> l.Found? && s.effect.Remove? && |s.effect.records| > 0
    ensures s.Mutate? ==> forall st :: st in s.effect.records <==> st in l.records && st.address == esc(o.address)
    ensures s.Mutate? ==> s.success.code == 200 && s.success.detail == "record deleted"
                          && s.success.records == [AsRecord(s.effect.records[0], esc(o.zoneName))]
    ensures l.Found? && (exists st :: st in l.records && st.address == esc(o.address)) ==> s.Mutate?
    ensures s.Mutate? ==> FirstWith(l.records, esc(o.address), s.effect.records[0])
  {
    match l
    case NotFound => Answer(NotFoundResponse)
    case LookupFailed(m) => Answer(ServerError(m))
    case Found(rs) =>
      var matching := WithAddress(rs, esc(o.address));
      if |matching| == 0 then Answer(NotFoundResponse)
      else Mutate(Remove(matching), Response(200, "record deleted", [AsRecord(matching[0], esc(o.zoneName))]))
  }

  /** The script run for a prepared request. */
  function ScriptStep(req: Request, l: Lookup, esc: string -> string): Step {
    match req
    case ReadA(o) => ReadScript(o, l, esc)
    case AddA(o) => AddScript(o, l, esc)
    case UpdateA(o) => UpdateScript(o, l, esc)
    case DeleteA(o) => DeleteScript(o, l, esc)
  }

  /** The end of a script as written: after the change it tests a variable
      that is never assigned, so a failed change still prints the success
      envelope. */
  function FinishAsWritten(s: Step, mutationError: Option<string>): (out: Printed)
    ensures s.Mutate? ==> out.rsp == s.success
  {
    match s
    case Answer(rsp) => Printed(rsp, None)
    case Mutate(e, success) => Printed(success, Some(e))
  }

  /** The end of a script as intended: a failed change prints 500 with the
      failure's message, a change that went through prints the success envelope. */
  function Finish(s: Step, mutationError: Option<string>): (out: Printed)
    ensures s.Answer? ==> out == Printed(s.rsp, None)
    ensures s.Mutate? ==> out.attempted == Some(s.effect)
    ensures s.Mutate? ==> (out.rsp.code == 200 <==> mutationError.None? && s.success.code == 200)
    ensures s.Mutate? && mutationError.Some? ==> out.rsp == ServerError(mutationError.value)
  {
    match s
    case Answer(rsp) => Printed(rsp, None)
    case Mutate(e, success) =>
      if mutationError.Some? then Printed(ServerError(mutationError.value), Some(e))
      else Printed(success, Some(e))
  }

  /** The discrepancy: an add whose creation fails is reported as created. */
  lemma FailedCreationReportedAsCreated(esc: string -> string)
    requires esc("www") == "www" && esc("10.0.0.5") == "10.0.0.5" && esc("example.com.") == "example.com."
    ensures FinishAsWritten(AddScript(AddOptions("dns1", "www", "10.0.0.5", "example.com.", false, false, 300),
                                      NotFound, esc), Some("Access denied")).rsp.code == 200
    ensures Finish(AddScript(AddOptions("dns1", "www", "10.0.0.5", "example.com.", false, false, 300),
                             NotFound, esc), Some("Access denied")).rsp == ServerError("Access denied")
  {
  }

  /** With the corrected ending, a 200 from any mutating script means the
      change went through and the envelope is the script's success envelope. */
  lemma SuccessMeansApplied(req: Request, l: Lookup, esc: string -> string, mutationError: Option<string>)
    requires !req.ReadA?
    requires Finish(ScriptStep(req, l, esc), mutationError).rsp.code == 200
    ensures mutationError.None?
    ensures ScriptStep(req, l, esc).Mutate?
    ensures Finish(ScriptStep(req, l, esc), mutationError) ==
              Printed(ScriptStep(req, l, esc).success, Some(ScriptStep(req, l, esc).effect))
  {
  }

  /** The two endings differ only when a change was attempted and failed. */
  lemma EndingsAgreeWithoutFailure(s: Step, mutationError: Option<string>)
    ensures Finish(s, mutationError) != FinishAsWritten(s, mutationError) <==>
              s.Mutate? && mutationError.Some? && s.success != ServerError(mutationError.value)
  {
  }
}
