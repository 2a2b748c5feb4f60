/** The provider: how its configuration becomes client options, and the
    identifier a record set is given. */
module Provider {
  import opened Wrappers
  import opened Errors
  import opened Windns
  import opened Validators

  /** The provider configuration. `None` is an attribute left out. */
  datatype Settings = Settings(
    dnsServer: string,
    proxyHost: Option<string>,
    username: string,
    password: string,
    domain: string,
    secureTransport: bool,
    ignoreSslChecks: bool,
    port: Option<int>,
    kdcServers: Option<seq<string>>,
    krb5Conf: Option<string>,
    timeout: Option<int>)

  /** `GetOk` on an integer attribute: set, and not the zero value. */
  predicate IntSupplied(v: Option<int>) {
    v.Some? && v.value != 0
  }

  predicate TextSupplied(v: Option<string>) {
    v.Some? && v.value != ""
  }

  /** `configureProvider`'s mapping of attributes onto client options. An
      attribute that is left out or zero leaves the option at its zero value. */
  function ConfigureOptions(cfg: Settings): (o: Options)
    ensures o.dnsServer == cfg.dnsServer && o.username == cfg.username && o.password == cfg.password
    ensures o.domain == cfg.domain
    ensures o.secureTransport == cfg.secureTransport && o.skipSslVerify == cfg.ignoreSslChecks
    ensures o.port == (if IntSupplied(cfg.port) then cfg.port.value else 0)
    ensures o.timeoutSeconds == (if IntSupplied(cfg.timeout) then cfg.timeout.value else 0)
    ensures o.krb5Conf == (if TextSupplied(cfg.krb5Conf) then cfg.krb5Conf.value else "")
    ensures o.proxyHost == (if TextSupplied(cfg.proxyHost) then cfg.proxyHost.value else "")
    ensures cfg.kdcServers.Some? ==> o.kdcServers == cfg.kdcServers.value
    ensures cfg.kdcServers.None? ==> o.kdcServers == []
  {
    Options(
      cfg.dnsServer,
      if TextSupplied(cfg.proxyHost) then cfg.proxyHost.value else "",
      cfg.username,
      cfg.password,
      cfg.domain,
      cfg.secureTransport,
      cfg.ignoreSslChecks,
      if IntSupplied(cfg.port) then cfg.port.value else 0,
      if cfg.kdcServers.Some? && |cfg.kdcServers.value| > 0 then CopyList(cfg.kdcServers.value) else [],
      if TextSupplied(cfg.krb5Conf) then cfg.krb5Conf.value else "",
      if IntSupplied(cfg.timeout) then cfg.timeout.value else 0)
  }

  /** The loop that appends each KDC in turn. */
  function CopyList(xs: seq<string>): (ys: seq<string>)
    ensures |ys| == |xs|
    ensures forall i :: 0 <= i < |xs| ==> ys[i] == xs[i]
  {
    if |xs| == 0 then [] else CopyList(xs[..|xs| - 1]) + [xs[|xs| - 1]]
  }

  /** `configureProvider`. */
  function ConfigureProvider(cfg: Settings, connect: (Endpoint, Kerberos) -> Option<string>): (r: Result<Client, Error>)
    ensures r.Ok? ==> r.value.options == ConfigureOptions(cfg)
    ensures r.Err? <==> connect(EndpointOf(ConfigureOptions(cfg)), KerberosOf(ConfigureOptions(cfg))).Some?
  {
    NewClient(ConfigureOptions(cfg), connect)
  }

  /** Attributes left out of the configuration get the client's defaults. */
  lemma LeftOutAttributesGetDefaults(cfg: Settings, connect: (Endpoint, Kerberos) -> Option<string>)
    requires ConfigureProvider(cfg, connect).Ok?
    ensures var c := ConfigureProvider(cfg, connect).value;
      && (!IntSupplied(cfg.port) ==> c.endpoint.port == if cfg.secureTransport then 5986 else 5985)
      && (!IntSupplied(cfg.timeout) ==> c.endpoint.timeoutSeconds == 60 && c.kerberos.timeoutSeconds == 60)
      && (!TextSupplied(cfg.proxyHost) ==> c.endpoint.host == cfg.dnsServer)
      && (cfg.kdcServers.None? ==> c.kerberos.kdc == [cfg.dnsServer])
      && (cfg.kdcServers.Some? && |cfg.kdcServers.value| > 0 ==> c.kerberos.kdc == cfg.kdcServers.value)
  {
  }

  /** `resourceFQDN`: the zone, prefixed with "name." when a name is set. */
  function ResourceFqdn(name: string, zone: string): (f: string)
    ensures name == "" ==> f == zone
    ensures name != "" ==> |f| == |name| + 1 + |zone| && f[..|name|] == name && f[|name|] == '.' && f[|name| + 1..] == zone
    ensures |zone| <= |f| && f[|f| - |zone|..] == zone
  {
    if name != "" then name + "." + zone else zone
  }

  /** A record set's identifier is fully qualified exactly when its zone is. */
  lemma FqdnQualifiedIffZoneIs(name: string, zone: string)
    requires zone != ""
    ensures IsFqdn(ResourceFqdn(name, zone)) <==> IsFqdn(zone)
  {
    if name != "" {
      assert ResourceFqdn(name, zone) == name + "." + zone;
      QualifiedAfterDot(name, zone);
    }
  }
}
