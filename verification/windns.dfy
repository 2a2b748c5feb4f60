/** The Windows DNS client: its options, the response envelope its scripts
    print, and the default resolution `NewClient` applies before it opens a
    WinRM session secured by Kerberos. */
module Windns {
  import opened Wrappers
  import opened Errors

  const DefaultTtl := 300
  const DefaultTimeout := 60
  const WinrmHttp := 5985
  const WinrmHttps := 5986

  /** One address record as the scripts report it. */
  datatype Record = Record(kind: string, name: string, zone: string, data: string, ttl: int)

  /** The envelope every script prints on standard output. */
  datatype Response = Response(code: int, detail: string, records: seq<Record>)

  /** What the caller configures. Zero values mean "not set". */
  datatype Options = Options(
    dnsServer: string,
    proxyHost: string,
    username: string,
    password: string,
    domain: string,
    secureTransport: bool,
    skipSslVerify: bool,
    port: int,
    kdcServers: seq<string>,
    krb5Conf: string,
    timeoutSeconds: int)

  /** The WinRM endpoint the client connects to. */
  datatype Endpoint = Endpoint(host: string, port: int, https: bool, insecure: bool, timeoutSeconds: int)

  /** The Kerberos transport the WinRM session authenticates with. */
  datatype Kerberos = Kerberos(
    username: string,
    password: string,
    domain: string,
    kdc: seq<string>,
    krb5Conf: string,
    timeoutSeconds: int)

  /** A constructed client keeps the caller's options unchanged beside the
      resolved connection parameters. */
  datatype Client = Client(options: Options, endpoint: Endpoint, kerberos: Kerberos)

  /** The WinRM port: the configured one unless it is zero, else the scheme's default. */
  function ResolvedPort(o: Options): (p: int)
    ensures p != 0
  {
    if o.port != 0 then o.port
    else if o.secureTransport then WinrmHttps
    else WinrmHttp
  }

  /** The host the session connects to: the proxy host when one is set. */
  function ConnectHost(o: Options): (h: string)
    ensures h == o.proxyHost || h == o.dnsServer
    ensures o.proxyHost != "" ==> h == o.proxyHost
    ensures h == "" <==> o.proxyHost == "" && o.dnsServer == ""
  {
    if o.proxyHost != "" then o.proxyHost else o.dnsServer
  }

  function ResolvedTimeout(o: Options): (t: int)
    ensures t > 0
  {
    if o.timeoutSeconds <= 0 then DefaultTimeout else o.timeoutSeconds
  }

  function ResolvedKdcs(o: Options): (k: seq<string>)
    ensures |k| > 0
  {
    if |o.kdcServers| == 0 then [o.dnsServer] else o.kdcServers
  }

  function EndpointOf(o: Options): Endpoint {
    Endpoint(ConnectHost(o), ResolvedPort(o), o.secureTransport, o.skipSslVerify, ResolvedTimeout(o))
  }

  function KerberosOf(o: Options): Kerberos {
    Kerberos(o.username, o.password, o.domain, ResolvedKdcs(o), o.krb5Conf, ResolvedTimeout(o))
  }

  /** Builds a client. `connect` stands for the WinRM library opening the
      session and answers the error it fails with, if any. */
  function NewClient(o: Options, connect: (Endpoint, Kerberos) -> Option<string>): (r: Result<Client, Error>)
    ensures r.Err? <==> connect(EndpointOf(o), KerberosOf(o)).Some?
    ensures r.Err? ==> r.error == Connect(connect(EndpointOf(o), KerberosOf(o)).value)
    ensures r.Ok? ==> r.value.options == o
    // port: zero picks 5985 or 5986 from the transport flag, anything else is kept
    ensures r.Ok? ==> r.value.endpoint.port != 0
    ensures r.Ok? && o.port == 0 && !o.secureTransport ==> r.value.endpoint.port == 5985
    ensures r.Ok? && o.port == 0 && o.secureTransport ==> r.value.endpoint.port == 5986
    ensures r.Ok? && o.port != 0 ==> r.value.endpoint.port == o.port
    // host: the proxy host wins over the DNS server
    ensures r.Ok? && o.proxyHost != "" ==> r.value.endpoint.host == o.proxyHost
    ensures r.Ok? && o.proxyHost == "" ==> r.value.endpoint.host == o.dnsServer
    // timeout: non-positive means 60 seconds, and both layers use the same value
    ensures r.Ok? ==> r.value.endpoint.timeoutSeconds == r.value.kerberos.timeoutSeconds > 0
    ensures r.Ok? && o.timeoutSeconds > 0 ==> r.value.endpoint.timeoutSeconds == o.timeoutSeconds
    ensures r.Ok? && o.timeoutSeconds <= 0 ==> r.value.endpoint.timeoutSeconds == 60
    // KDCs: an empty list means the DNS server itself, never the proxy host
    ensures r.Ok? && |o.kdcServers| == 0 ==> r.value.kerberos.kdc == [o.dnsServer]
    ensures r.Ok? && |o.kdcServers| > 0 ==> r.value.kerberos.kdc == o.kdcServers
    // credentials and transport flags pass through untouched
    ensures r.Ok? ==> r.value.kerberos.username == o.username && r.value.kerberos.password == o.password
    ensures r.Ok? ==> r.value.kerberos.domain == o.domain && r.value.kerberos.krb5Conf == o.krb5Conf
    ensures r.Ok? ==> r.value.endpoint.https == o.secureTransport && r.value.endpoint.insecure == o.skipSslVerify
  {
    var endpoint := EndpointOf(o);
    var kerberos := KerberosOf(o);
    match connect(endpoint, kerberos)
    case Some(msg) => Err(Connect(msg))
    case None => Ok(Client(o, endpoint, kerberos))
  }

  /** The options with every default written out. */
  function Explicit(o: Options): Options {
    o.(port := ResolvedPort(o), timeoutSeconds := ResolvedTimeout(o), kdcServers := ResolvedKdcs(o))
  }

  /** Default resolution is a fixed point: writing the defaults out in the
      options changes neither the endpoint nor the Kerberos transport. */
  lemma DefaultsAreFixedPoint(o: Options, connect: (Endpoint, Kerberos) -> Option<string>)
    ensures EndpointOf(Explicit(o)) == EndpointOf(o)
    ensures KerberosOf(Explicit(o)) == KerberosOf(o)
    ensures NewClient(Explicit(o), connect).Ok? == NewClient(o, connect).Ok?
  {
  }
}
