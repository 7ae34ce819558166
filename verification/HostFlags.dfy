/** cmdflagsfromhost/cmdflagsfromhost.go and config/context.go: from flags and configuration to the endpoint. */
module HostFlags {
  import opened Sequences
  import opened Text
  import opened Remotes
  import opened Hosts
  import ConfigStore
  import RemoteCommands
  import Config

  class Context {
    /** net.SplitHostPort: the host, or None for an address that it does not split. */
    const splitHostPort: string -> Option<string>
    var remote: string
    var infrastructure: string
    var infrastructureDomain: string
    var serviceDomain: string
    var username: string
    var token: string

    constructor (splitHostPort: string -> Option<string>)
      ensures this.splitHostPort == splitHostPort
    {
      this.splitHostPort := splitHostPort;
      remote, infrastructure, infrastructureDomain, serviceDomain, username, token := "", "", "", "", "", "";
    }

    predicate IsHTTPLocalhost(address: string) {
      splitHostPort(TrimPrefix(address, "http://")) == Some("localhost")
    }

    function InfrastructureServer(e: Entry): string {
      if IsHTTPLocalhost(e.infrastructure) then e.infrastructure else "https://api." + e.infrastructure
    }

    function RemoteAddress(address: string): string {
      var trimmed := TrimPrefix(address, "https://api.");
      match splitHostPort(trimmed) case Some(host) => host case None => trimmed
    }

    /** The server of a remote: a local address is used as it is, any other one is that of an API. */
    lemma ServerIs(e: Entry, address: string)
      ensures e.infrastructure == "http://" + address && splitHostPort(address) == Some("localhost") ==>
                InfrastructureServer(e) == "http://" + address
      ensures e.infrastructure == address && !("http://" <= address) ==>
                InfrastructureServer(e) == if splitHostPort(address) == Some("localhost") then address
                                           else "https://api." + address
      ensures e.infrastructure == "http://" + address && splitHostPort(address) != Some("localhost") ==>
                InfrastructureServer(e) == "https://api.http://" + address
    {
      assert ("http://" + address)[|"http://"|..] == address;
      assert "https://api." + ("http://" + address) == "https://api.http://" + address;
    }

    /** The domain of a remote: its address without the API part, and without the port where there is one. */
    lemma DomainIs(address: string, host: string)
      ensures splitHostPort(address) == Some(host) ==> RemoteAddress("https://api." + address) == host
      ensures splitHostPort(address) == None ==> RemoteAddress("https://api." + address) == address
      ensures !("https://api." <= address) ==>
                RemoteAddress(address) == if splitHostPort(address).Some? then splitHostPort(address).value else address
    {
      assert ("https://api." + address)[|"https://api."|..] == address;
    }

    ghost predicate IsAt(name: string, e: Entry)
      reads this
    {
      && remote == name && serviceDomain == e.service && username == e.username && token == e.token
      && infrastructure == InfrastructureServer(e) && infrastructureDomain == RemoteAddress(e.infrastructure)
    }

    method SetEndpoint(list: List, name: string) returns (ok: bool)
      modifies this
      ensures ok <==> name in list.entries
      ensures ok ==> IsAt(name, list.entries[name])
      ensures !ok ==> unchanged(this)
    {
      if !list.Has(name) {
        return false;
      }
      var r := list.Get(name);
      remote := name;
      infrastructure := InfrastructureServer(r);
      infrastructureDomain := RemoteAddress(r.infrastructure);
      serviceDomain := r.service;
      username := r.username;
      token := r.token;
      return true;
    }
  }

  datatype SetupError =
    | NoError
    | LoadFailed
    | ParseFailed(error: Hosts.Error)
    | RemoteNotAllowed
    | ProjectNotAllowed
    | ServiceNotAllowed
    | EndpointNotFound(remote: string)

  class SetupHost {
    const allowsRemote: bool
    const allowsProject: bool
    const allowsService: bool
    const allowMissingProject: bool
    var url: string
    var project: string
    var service: string
    var remote: string
    const remoteChanged: bool

    constructor (allowsRemote: bool, allowsProject: bool, allowsService: bool, allowMissingProject: bool,
                 pf: ParseFlags, remoteChanged: bool)
      ensures url == pf.host && project == pf.project && service == pf.service && remote == pf.remote
      ensures this.remoteChanged == remoteChanged && this.allowsRemote == allowsRemote
      ensures this.allowsProject == allowsProject && this.allowsService == allowsService
      ensures this.allowMissingProject == allowMissingProject
    {
      this.allowsRemote, this.allowsProject, this.allowsService := allowsRemote, allowsProject, allowsService;
      this.allowMissingProject, this.remoteChanged := allowMissingProject, remoteChanged;
      url, project, service, remote := pf.host, pf.project, pf.service, pf.remote;
    }

    function Given(): ParseFlags
      reads this
    {
      ParseFlags(project, service, remote, url)
    }

    ghost function ParsedFlags(remotes: Entries, defaultRemote: string): Parsed
      reads this
    {
      ParseWithDefaultCustomRemote(Some(remotes), Given(), remoteChanged, defaultRemote)
    }

    /** tryParseFlags: a service without a project is tolerated by some commands, unless it comes from a host. */
    method TryParseFlags(conf: Config.Config) returns (parsed: Parsed)
      ensures var p := ParsedFlags(conf.remotes.entries, conf.defaultRemote);
              && parsed.flags == p.flags
              && (parsed.error.Some? ==> parsed.error == p.error)
              && (parsed.error == None <==>
                  || p.error == None
                  || (p.error == Some(ServiceWithNoProject) && allowsService && allowMissingProject && url == ""))
    {
      parsed := ParseWithDefaultCustomRemote(Some(conf.remotes.entries), Given(), remoteChanged, conf.defaultRemote);
      if parsed.error == Some(ServiceWithNoProject) && allowsService && allowMissingProject && url == "" {
        return Parsed(parsed.flags, None);
      }
    }

    /** Why the command does not allow the flags, in the order of the tests. */
    function Refusal(f: Flags): SetupError {
      if !allowsRemote then RemoteNotAllowed
      else if !allowsProject && f.project != "" then ProjectNotAllowed
      else if !allowsService && f.service != "" then ServiceNotAllowed
      else NoError
    }

    /** The part of loadValues that chooses the remote. */
    method LoadValues(f: Flags, conf: Config.Config, wectx: Context) returns (err: SetupError)
      modifies this, wectx
      ensures remote == ChosenRemote(f) && service == f.service && project == f.project
      ensures err == if Refusal(f) == NoError && ChosenRemote(f) !in conf.remotes.entries
                     then EndpointNotFound(ChosenRemote(f))
                     else Refusal(f)
      ensures err == RemoteNotAllowed <==> !allowsRemote
      ensures err == ProjectNotAllowed <==> allowsRemote && !allowsProject && f.project != ""
      ensures err == ServiceNotAllowed <==>
              allowsRemote && (allowsProject || f.project == "") && !allowsService && f.service != ""
      ensures err == NoError ==> wectx.IsAt(ChosenRemote(f), EntryFor(conf.remotes.entries, ChosenRemote(f)))
    {
      service, project, remote := f.service, f.project, f.remote;
      if remote == "" {
        remote := CLOUD_REMOTE;
      }
      if !allowsRemote {
        return RemoteNotAllowed;
      }
      if !allowsProject && project != "" {
        return ProjectNotAllowed;
      }
      if !allowsService && service != "" {
        return ServiceNotAllowed;
      }
      var ok := wectx.SetEndpoint(conf.remotes, remote);
      if !ok {
        return EndpointNotFound(remote);
      }
      return NoError;
    }

    /** The result, given what the flags parsed to: an error of the parse unless it is tolerated,
        or else whether the command allows the flags, with the remote that they choose. */
    ghost predicate IsOutcome(err: SetupError, parsed: Parsed, tolerates: bool)
      reads this
    {
      if parsed.error.Some? && !(parsed.error.value == ServiceWithNoProject && tolerates)
      then err == ParseFailed(parsed.error.value)
      else
        && parsed.flags.Some?
        && remote == ChosenRemote(parsed.flags.value)
        && service == parsed.flags.value.service && project == parsed.flags.value.project
        && err == Refusal(parsed.flags.value)
        && (err == NoError <==>
              && allowsRemote && (allowsProject || parsed.flags.value.project == "")
              && (allowsService || parsed.flags.value.service == ""))
    }

    /** From any stored configuration and any flags: once the configuration loads and the flags parse,
        the remote that is chosen is in the list, so that setting the endpoint cannot fail. What is refused is exactly
        a configuration that does not load, flags that do not parse, and flags that the command does not allow. */
    method Process(stored: Option<ConfigStore.File>, conf: Config.Config, wectx: Context) returns (err: SetupError)
      modifies this, wectx, conf, conf.remotes
      ensures !err.EndpointNotFound?
      ensures err == LoadFailed <==> !ConfigStore.Accepted(stored)
      ensures ConfigStore.Accepted(stored) ==>
                var p := ConfigStore.LoadParams(stored);
                IsOutcome(err, old(ParsedFlags(p.remotes, p.defaultRemote)),
                          allowsService && allowMissingProject && old(url) == "")
      ensures ConfigStore.Accepted(stored) ==>
                var remotes := ConfigStore.LoadParams(stored).remotes;
                forall s, p, domain, r :: IsPrinted(remotes, old(Given()), remoteChanged, s, p, domain, r) ==>
                  remote == (if r == "" then CLOUD_REMOTE else r) && service == s && project == p
      ensures err == NoError ==> remote in conf.remotes.entries && wectx.IsAt(remote, conf.remotes.entries[remote])
    {
      var ok := conf.Load(stored);
      if !ok {
        return LoadFailed;
      }
      RemoteCommands.CloudRemoteIsLoaded(stored);
      err := ProcessLoaded(conf, wectx);
    }

    method ProcessLoaded(conf: Config.Config, wectx: Context) returns (err: SetupError)
      requires conf.defaultRemote in conf.remotes.entries && CLOUD_REMOTE in conf.remotes.entries
      modifies this, wectx
      ensures !err.EndpointNotFound? && !err.LoadFailed?
      ensures IsOutcome(err, old(ParsedFlags(conf.remotes.entries, conf.defaultRemote)),
                        allowsService && allowMissingProject && old(url) == "")
      ensures forall s, p, domain, r ::
                IsPrinted(conf.remotes.entries, old(Given()), remoteChanged, s, p, domain, r) ==>
                remote == (if r == "" then CLOUD_REMOTE else r) && service == s && project == p
      ensures err == NoError ==> remote in conf.remotes.entries && wectx.IsAt(remote, conf.remotes.entries[remote])
    {
      ghost var pf := Given();
      ChosenRemoteIsListed(conf.remotes.entries, pf, remoteChanged, conf.defaultRemote);
      forall s, p, domain, r | IsPrinted(conf.remotes.entries, pf, remoteChanged, s, p, domain, r)
        ensures var parsed := ParsedFlags(conf.remotes.entries, conf.defaultRemote);
                && parsed.error == None && parsed.flags.Some?
                && ChosenRemote(parsed.flags.value) == (if r == "" then CLOUD_REMOTE else r)
                && parsed.flags.value.service == s && parsed.flags.value.project == p
      {
        PrintedHostIsChosen(conf.remotes.entries, s, p, domain, r, pf, remoteChanged, conf.defaultRemote);
      }
      var parsed := TryParseFlags(conf);
      if parsed.error.Some? {
        return ParseFailed(parsed.error.value);
      }
      FlagsWithoutError(Some(conf.remotes.entries), pf, remoteChanged, conf.defaultRemote);
      err := LoadValues(parsed.flags.value, conf, wectx);
    }
  }

  lemma FlagsWithoutError(remotes: Option<Entries>, pf: ParseFlags, remoteChanged: bool, customRemote: string)
    ensures var parsed := ParseWithDefaultCustomRemote(remotes, pf, remoteChanged, customRemote);
            parsed.error == None || parsed.error == Some(ServiceWithNoProject) ==> parsed.flags.Some?
  {}
}
