/** The four address-record operations of the client: validate the options,
    apply the option defaults, run the operation's script remotely and
    classify what came back. */
module ARecord {
  import opened Wrappers
  import opened Errors
  import opened Windns

  datatype ReadOptions = ReadOptions(dnsServer: string, name: string, address: string, zoneName: string)

  datatype AddOptions = AddOptions(
    dnsServer: string,
    name: string,
    address: string,
    zoneName: string,
    allowUpdateAny: bool,
    createPtr: bool,
    ttl: int)

  datatype UpdateOptions = UpdateOptions(
    dnsServer: string,
    name: string,
    address: string,
    newAddress: string,
    zoneName: string,
    ttl: int)

  datatype DeleteOptions = DeleteOptions(dnsServer: string, name: string, address: string, zoneName: string)

  /** One call on the client: the operation kind together with its options. */
  datatype Request =
    | ReadA(read: ReadOptions)
    | AddA(add: AddOptions)
    | UpdateA(update: UpdateOptions)
    | DeleteA(delete: DeleteOptions)
  {
    function Name(): string {
      match this
      case ReadA(o) => o.name
      case AddA(o) => o.name
      case UpdateA(o) => o.name
      case DeleteA(o) => o.name
    }

    function ZoneName(): string {
      match this
      case ReadA(o) => o.zoneName
      case AddA(o) => o.zoneName
      case UpdateA(o) => o.zoneName
      case DeleteA(o) => o.zoneName
    }

    function Address(): string {
      match this
      case ReadA(o) => o.address
      case AddA(o) => o.address
      case UpdateA(o) => o.address
      case DeleteA(o) => o.address
    }

    function DnsServer(): string {
      match this
      case ReadA(o) => o.dnsServer
      case AddA(o) => o.dnsServer
      case UpdateA(o) => o.dnsServer
      case DeleteA(o) => o.dnsServer
    }
  }

  /** What the remote runner reports: its own failure, or the script's exit
      status with the captured standard output and standard error. */
  datatype RunOutcome = RunError(message: string) | Exited(code: int, stdout: Bytes, stderr: string)

  /** The required options of each operation kind, in the order they are checked,
      paired with the field name the error reports. */
  function Required(req: Request): seq<(string, string)> {
    match req
    case ReadA(o) => [("name", o.name), ("zone_name", o.zoneName)]
    case AddA(o) => [("name", o.name), ("address", o.address), ("zone_name", o.zoneName)]
    case UpdateA(o) => [("name", o.name), ("zone_name", o.zoneName), ("address", o.address)]
    case DeleteA(o) => [("name", o.name), ("zone_name", o.zoneName), ("address", o.address)]
  }

  /** The first field in `fields` whose value is empty. */
  function FirstMissing(fields: seq<(string, string)>): (r: Option<Error>)
    ensures r.None? <==> forall i :: 0 <= i < |fields| ==> fields[i].1 != ""
    ensures r.Some? ==> exists i :: 0 <= i < |fields| && fields[i].1 == "" && r.value == Missing(fields[i].0)
                                    && forall j :: 0 <= j < i ==> fields[j].1 != ""
  {
    if |fields| == 0 then None
    else if fields[0].1 == "" then Some(Missing(fields[0].0))
    else
      var r := FirstMissing(fields[1..]);
      assert r.Some? ==> exists i :: 1 <= i < |fields| && fields[i].1 == "" && r.value == Missing(fields[i].0)
                                     && forall j :: 0 <= j < i ==> fields[j].1 != "" by {
        if r.Some? {
          var k :| 0 <= k < |fields| - 1 && fields[1..][k].1 == "" && r.value == Missing(fields[1..][k].0)
                   && forall j :: 0 <= j < k ==> fields[1..][j].1 != "";
          assert forall j :: 0 <= j < k + 1 ==> fields[j].1 != "" by {
            forall j | 0 <= j < k + 1 ensures fields[j].1 != "" {
              if j > 0 { assert fields[j] == fields[1..][j - 1]; }
            }
          }
        }
      }
      r
  }

  /** The validation step that precedes everything else in each operation. */
  function Validate(req: Request): (r: Option<Error>)
    ensures r.None? <==> req.Name() != "" && req.ZoneName() != "" && (req.ReadA? || req.Address() != "")
    ensures req.Name() == "" ==> r == Some(Missing("name"))
    // Add checks the address before the zone
    ensures req.AddA? && req.Name() != "" && req.Address() == "" ==> r == Some(Missing("address"))
    ensures req.AddA? && req.Name() != "" && req.Address() != "" && req.ZoneName() == "" ==>
              r == Some(Missing("zone_name"))
    // Read, Update and Delete check the zone before the address
    ensures !req.AddA? && req.Name() != "" && req.ZoneName() == "" ==> r == Some(Missing("zone_name"))
    ensures (req.UpdateA? || req.DeleteA?) && req.Name() != "" && req.ZoneName() != "" && req.Address() == "" ==>
              r == Some(Missing("address"))
  {
    match req
    case ReadA(o) =>
      if o.name == "" then Some(Missing("name"))
      else if o.zoneName == "" then Some(Missing("zone_name"))
      else None
    case AddA(o) =>
      if o.name == "" then Some(Missing("name"))
      else if o.address == "" then Some(Missing("address"))
      else if o.zoneName == "" then Some(Missing("zone_name"))
      else None
    case UpdateA(o) =>
      if o.name == "" then Some(Missing("name"))
      else if o.zoneName == "" then Some(Missing("zone_name"))
      else if o.address == "" then Some(Missing("address"))
      else None
    case DeleteA(o) =>
      if o.name == "" then Some(Missing("name"))
      else if o.zoneName == "" then Some(Missing("zone_name"))
      else if o.address == "" then Some(Missing("address"))
      else None
  }

  /** Validation reports exactly the first empty field of the operation's
      required list, and nothing when none is empty. */
  lemma ValidateReportsFirstMissing(req: Request)
    ensures Validate(req) == FirstMissing(Required(req))
  {
    var f := Required(req);
    assert f[1..][1..] == f[2..];
    if |f| == 3 {
      assert f[2..][1..] == f[3..] == [];
      assert FirstMissing(f[3..]) == None;
      assert FirstMissing(f[2..]) == if f[2].1 == "" then Some(Missing(f[2].0)) else None;
    } else {
      assert f[2..] == [];
    }
  }

  /** The options as the script sees them: the DNS server is always the
      client's, and an Add's TTL below 1 becomes 300. Update keeps its TTL. */
  function Prepare(req: Request, dnsServer: string): (p: Request)
    ensures p.DnsServer() == dnsServer
    ensures p.Name() == req.Name() && p.ZoneName() == req.ZoneName() && p.Address() == req.Address()
    ensures p.AddA? ==> p.add.ttl >= 1
    ensures req.AddA? ==> p.AddA? && p.add.ttl == (if req.add.ttl < 1 then DefaultTtl else req.add.ttl)
    ensures req.AddA? ==> p.add.allowUpdateAny == req.add.allowUpdateAny && p.add.createPtr == req.add.createPtr
    ensures req.UpdateA? ==> p == UpdateA(req.update.(dnsServer := dnsServer))
    ensures req.ReadA? ==> p == ReadA(req.read.(dnsServer := dnsServer))
    ensures req.DeleteA? ==> p == DeleteA(req.delete.(dnsServer := dnsServer))
  {
    match req
    case ReadA(o) => ReadA(o.(dnsServer := dnsServer))
    case AddA(o) => AddA(o.(dnsServer := dnsServer, ttl := if o.ttl < 1 then DefaultTtl else o.ttl))
    case UpdateA(o) => UpdateA(o.(dnsServer := dnsServer))
    case DeleteA(o) => DeleteA(o.(dnsServer := dnsServer))
  }

  /** Preparing options twice is the same as preparing them once. */
  lemma PrepareIdempotent(req: Request, dnsServer: string)
    ensures Prepare(Prepare(req, dnsServer), dnsServer) == Prepare(req, dnsServer)
  {
  }

  /** One client call: `ReadARecord`, `AddARecord`, `UpdateARecord` or
      `DeleteARecord` according to the request's kind. `run` executes the
      script rendered from the prepared options; `decode` is the JSON decoder. */
  function Execute(c: Client, req: Request, run: Request -> RunOutcome, decode: Bytes -> Result<Response, string>)
    : (r: Result<Response, Error>)
    ensures Validate(req).Some? ==> r == Err(Validate(req).value)
    ensures Validate(req).None? && run(Prepare(req, c.options.dnsServer)).RunError? ==>
              r == Err(RunFailed(run(Prepare(req, c.options.dnsServer)).message))
    ensures Validate(req).None? && run(Prepare(req, c.options.dnsServer)).Exited?
              && run(Prepare(req, c.options.dnsServer)).code != 0 ==>
              r == Err(ExitStatus(run(Prepare(req, c.options.dnsServer)).code,
                                  run(Prepare(req, c.options.dnsServer)).stderr))
    ensures r.Ok? <==> Validate(req).None? && run(Prepare(req, c.options.dnsServer)).Exited?
                       && run(Prepare(req, c.options.dnsServer)).code == 0
                       && decode(run(Prepare(req, c.options.dnsServer)).stdout).Ok?
    ensures r.Ok? ==> r.value == decode(run(Prepare(req, c.options.dnsServer)).stdout).value
  {
    match Validate(req)
    case Some(e) => Err(e)
    case None =>
      match run(Prepare(req, c.options.dnsServer))
      case RunError(m) => Err(RunFailed(m))
      case Exited(code, stdout, stderr) =>
        if code != 0 then Err(ExitStatus(code, stderr))
        else
          match decode(stdout)
          case Err(m) => Err(Malformed(m))
          case Ok(rsp) => Ok(rsp)
  }

  /** Validation comes before any remote call: an invalid request gets the
      same answer whatever the runner would have done. */
  lemma InvalidNeverRuns(c: Client, req: Request, run1: Request -> RunOutcome, run2: Request -> RunOutcome,
                         decode: Bytes -> Result<Response, string>)
    requires Validate(req).Some?
    ensures Execute(c, req, run1, decode) == Execute(c, req, run2, decode)
    ensures Execute(c, req, run1, decode).Err? && Execute(c, req, run1, decode).error.Missing?
  {
  }

  /** The script sees only the prepared options: runners that agree on them
      give the same answer, and the caller's own DNS server field never matters. */
  lemma OnlyPreparedOptionsReachRunner(c: Client, req1: Request, req2: Request,
                                       run: Request -> RunOutcome, decode: Bytes -> Result<Response, string>)
    requires Prepare(req1, c.options.dnsServer) == Prepare(req2, c.options.dnsServer)
    ensures Execute(c, req1, run, decode) == Execute(c, req2, run, decode)
  {
    assert Validate(req1) == Validate(req2) by {
      assert req1.Name() == req2.Name() && req1.ZoneName() == req2.ZoneName() && req1.Address() == req2.Address();
      assert req1.ReadA? == req2.ReadA?;
    }
  }

  /** A zero exit status returns the decoded envelope as a success whatever
      code the envelope carries: a 404 is not a transport error. */
  lemma EnvelopeCodeIsNotAnError(c: Client, req: Request, run: Request -> RunOutcome,
                                 decode: Bytes -> Result<Response, string>, rsp: Response)
    requires Validate(req).None?
    requires run(Prepare(req, c.options.dnsServer)).Exited?
    requires run(Prepare(req, c.options.dnsServer)).code == 0
    requires decode(run(Prepare(req, c.options.dnsServer)).stdout) == Ok(rsp)
    ensures Execute(c, req, run, decode) == Ok(rsp)
  {
  }
}
