/** flagsfromhost/flagsfromhost.go, and the printer of cmdflagsfromhost/cmdflagsfromhost.go:
    hosts as they are printed, and as they are parsed against the list of remotes. */
module Hosts {
  import opened Sequences
  import opened Text
  import opened Remotes

  /** NilRemotes stands for the nil dereference of a check against a missing list. */
  datatype HostError =
    | RemoteFlagAndHost
    | MultiMode
    | LoadingRemoteList
    | FoundNoRemote(host: string)
    | NotFound(remote: string)
    | FoundMultipleRemote(host: string, remotes: seq<string>)
    | NilRemotes

  datatype Error = ServiceWithNoProject | Unparsed(reason: HostError)

  datatype Flags = Flags(project: string, service: string, remote: string, isRemoteFromHost: bool)

  datatype Result = Ok(flags: Flags) | Fail(error: HostError)

  /** Parse can return flags and an error together. */
  datatype Parsed = Parsed(flags: Option<Flags>, error: Option<Error>)

  datatype Address = Resolved(remote: string) | Unresolved(error: HostError)

  datatype ParseFlags = ParseFlags(project: string, service: string, remote: string, host: string)

  // ----- Remote addresses -----

  predicate MatchStringWithPrefix(prefix: string, ref: string, s: string) {
    HasPrefix(s, prefix) && ref == TrimPrefix(s, prefix)
  }

  predicate MatchesAddress(address: string, service: string) {
    || MatchStringWithPrefix("http://", address, service)
    || MatchStringWithPrefix("https://", address, service)
    || address == service
  }

  function HasAddress(remotes: Entries, address: string): string -> bool {
    name => name in remotes && MatchesAddress(address, remotes[name].service)
  }

  /** The remotes with an address, in order of their names. */
  function FoundRemotes(remotes: Entries, address: string): seq<string> {
    Filter(SortedList(remotes.Keys), HasAddress(remotes, address))
  }

  /** parseRemoteAddress. */
  method FindRemotes(list: List, address: string) returns (found: seq<string>)
    ensures found == FoundRemotes(list.entries, address)
  {
    found := [];
    var keys := list.Keys();
    for i := 0 to |keys|
      invariant found == Filter(keys[..i], HasAddress(list.entries, address))
    {
      assert keys[..i + 1][..i] == keys[..i];
      var v := list.Get(keys[i]);
      assert keys[i] in keys;
      var sameHTTP := MatchStringWithPrefix("http://", address, v.service);
      var sameHTTPS := MatchStringWithPrefix("https://", address, v.service);
      if sameHTTP || sameHTTPS || address == v.service {
        found := found + [keys[i]];
      }
    }
    assert keys[..|keys|] == keys;
  }

  function ParseRemoteAddress(remotes: Option<Entries>, address: string): Address {
    if address == "" then Resolved("")
    else if remotes.None? then Unresolved(LoadingRemoteList)
    else
      var found := FoundRemotes(remotes.value, address);
      if |found| == 0 then Unresolved(FoundNoRemote(address))
      else if |found| == 1 then Resolved(found[0])
      else Unresolved(FoundMultipleRemote(address, found))
  }

  // ----- Hosts -----

  /** SetupHost.Host. */
  function Host(service: string, project: string, domain: string): string {
    (if service != "" then service + "-" else "") + project + "." + domain
  }

  function ParseHostWithRemote(remotes: Option<Entries>, project: string, service: string, host: string,
                               remoteHost: string): Result
  {
    match ParseRemoteAddress(remotes, remoteHost)
    case Unresolved(FoundNoRemote(_)) => Fail(FoundNoRemote(host))
    case Unresolved(error) => Fail(error)
    case Resolved(remote) => Ok(Flags(project, service, remote, remote != "" || HasSuffix(host, "." + CLOUD_REMOTE)))
  }

  function ParseHost(remotes: Option<Entries>, host: string): Result {
    var parseDot := SplitFirst(host, '.');
    var parseHyphen := SplitFirst(parseDot[0], '-');
    if |parseDot| == 1 then
      if |parseHyphen| == 1 then Ok(Flags("", parseHyphen[0], "", false))
      else Ok(Flags(parseHyphen[1], parseHyphen[0], "", false))
    else if |parseHyphen| == 1 then ParseHostWithRemote(remotes, parseHyphen[0], "", host, parseDot[1])
    else ParseHostWithRemote(remotes, parseHyphen[1], parseHyphen[0], host, parseDot[1])
  }

  /** A remote of the flags is looked up in the list. */
  function WithFlagRemote(remotes: Option<Entries>, f: Flags, remote: string): Result {
    if remote == "" then Ok(f)
    else if remotes.None? then Fail(NilRemotes)
    else if remote !in remotes.value then Fail(NotFound(remote))
    else Ok(f.(remote := remote))
  }

  function ParseWithHost(remotes: Option<Entries>, host: string, remoteFromFlag: string): Result {
    match ParseRemoteAddress(remotes, host)
    case Resolved(remote) =>
      if remote != "" && remoteFromFlag != "" then Fail(RemoteFlagAndHost)
      else Ok(Flags("", "", remote, true))
    case Unresolved(FoundMultipleRemote(h, names)) => Fail(FoundMultipleRemote(h, names))
    case Unresolved(_) => WithHostParts(remotes, ParseHost(remotes, host), remoteFromFlag)
  }

  function WithHostParts(remotes: Option<Entries>, parsed: Result, remoteFromFlag: string): Result {
    match parsed
    case Fail(error) => Fail(error)
    case Ok(f) =>
      if f.remote != "" && remoteFromFlag != "" then Fail(RemoteFlagAndHost)
      else WithFlagRemote(remotes, f, remoteFromFlag)
  }

  function ParseLowered(remotes: Option<Entries>, pf: ParseFlags): Result {
    if pf.host != "" then
      if pf.project != "" || pf.service != "" then Fail(MultiMode)
      else ParseWithHost(remotes, pf.host, pf.remote)
    else WithFlagRemote(remotes, Flags(pf.project, pf.service, "", false), pf.remote)
  }

  function Lowered(pf: ParseFlags): ParseFlags {
    ParseFlags(ToLower(pf.project), ToLower(pf.service), ToLower(pf.remote), ToLower(pf.host))
  }

  function Parse(remotes: Option<Entries>, pf: ParseFlags): Parsed {
    match ParseLowered(remotes, Lowered(pf))
    case Fail(error) => Parsed(None, Some(Unparsed(error)))
    case Ok(f) => Parsed(Some(f), if f.service != "" && f.project == "" then Some(ServiceWithNoProject) else None)
  }

  /** What ParseWithDefaultCustomRemote makes of the remote of the flags. */
  function WithDefaultRemote(f: Flags, remoteChanged: bool, customRemote: string): Flags {
    if f.remote == "" && (remoteChanged || f.isRemoteFromHost) then f.(remote := CLOUD_REMOTE)
    else if !f.isRemoteFromHost && !remoteChanged then f.(remote := customRemote)
    else f
  }

  function ParseWithDefaultCustomRemote(remotes: Option<Entries>, pf: ParseFlags, remoteChanged: bool,
                                        customRemote: string): Parsed
  {
    var parsed := Parse(remotes, if remoteChanged then pf else pf.(remote := ""));
    match parsed.flags
    case None => parsed
    case Some(f) => Parsed(Some(WithDefaultRemote(f, remoteChanged, customRemote)), parsed.error)
  }

  // ----- The parser inverts the printer -----

  lemma LoweringKeeps(s: string)
    requires IsLower(s)
    ensures ToLower(s) == s
  {}

  /** The address of the service of the remote, with or without a scheme. */
  ghost predicate HasService(remotes: Entries, name: string, address: string) {
    && name in remotes
    && var service := remotes[name].service;
       service == address || service == "http://" + address || service == "https://" + address
  }

  ghost predicate NobodyHas(remotes: Entries, address: string) {
    forall name :: !HasService(remotes, name, address)
  }

  ghost predicate OnlyOneHas(remotes: Entries, address: string, remote: string) {
    forall name :: HasService(remotes, name, address) <==> name == remote
  }

  lemma MatchingIs(address: string, service: string)
    ensures MatchesAddress(address, service) <==>
            service == address || service == "http://" + address || service == "https://" + address
  {
    PrefixIs("http://", address, service);
    PrefixIs("https://", address, service);
  }

  lemma PrefixIs(prefix: string, ref: string, s: string)
    ensures MatchStringWithPrefix(prefix, ref, s) <==> s == prefix + ref
  {
    if prefix <= s {
      assert s == prefix + s[|prefix|..];
    }
  }

  lemma FoundIsListed(remotes: Entries, address: string)
    ensures forall name :: name in FoundRemotes(remotes, address) <==> HasService(remotes, name, address)
    ensures NoDuplicates(FoundRemotes(remotes, address))
  {
    forall name | name in remotes
      ensures MatchesAddress(address, remotes[name].service) <==> HasService(remotes, name, address)
    {
      MatchingIs(address, remotes[name].service);
    }
    var keys, p := SortedList(remotes.Keys), HasAddress(remotes, address);
    FilterElements(keys, p);
    SortedListIs(remotes.Keys);
    forall i, j | 0 <= i < j < |keys| ensures keys[i] != keys[j] {
      LessTrichotomy(keys[i], keys[j]);
    }
    FilterKeepsDistinct(keys, p);
  }

  lemma FoundNone(remotes: Entries, address: string)
    ensures FoundRemotes(remotes, address) == [] <==> NobodyHas(remotes, address)
  {
    FoundIsListed(remotes, address);
    var found := FoundRemotes(remotes, address);
    if found != [] {
      assert found[0] in found;
    } else {
      forall name ensures !HasService(remotes, name, address) {
        assert name !in found;
      }
    }
  }

  lemma DistinctCopies<T>(s: seq<T>, x: T)
    requires NoDuplicates(s) && forall i :: 0 <= i < |s| ==> s[i] == x
    ensures |s| <= 1
  {
    if |s| > 1 {
      DistinctAt(s, 0, 1);
    }
  }

  lemma DistinctAt<T>(s: seq<T>, i: nat, j: nat)
    requires NoDuplicates(s) && i < j < |s|
    ensures s[i] != s[j]
  {}

  lemma FoundOne(remotes: Entries, address: string, remote: string)
    ensures FoundRemotes(remotes, address) == [remote] <==> OnlyOneHas(remotes, address, remote)
  {
    FoundIsListed(remotes, address);
    var found := FoundRemotes(remotes, address);
    if OnlyOneHas(remotes, address, remote) {
      assert remote in found;
      forall i | 0 <= i < |found| ensures found[i] == remote {
        assert found[i] in found;
      }
      DistinctCopies(found, remote);
    }
    if found == [remote] {
      assert remote in found;
      forall name ensures HasService(remotes, name, address) <==> name == remote {
        assert name in found <==> name == remote;
      }
    }
  }

  /** The first part of a printed host. */
  function Front(service: string, project: string): string {
    (if service != "" then service + "-" else "") + project
  }

  /** Service and project, as the first part of a host is taken apart. */
  function Names(part: string): (string, string) {
    var parseHyphen := SplitFirst(part, '-');
    if |parseHyphen| == 1 then ("", parseHyphen[0]) else (parseHyphen[0], parseHyphen[1])
  }

  /** The printed names can be told apart again: they are in lower case, there is no dot in either
      and no hyphen in the service, or in the project when there is no service. */
  ghost predicate Separable(service: string, project: string) {
    && IsLower(service) && IsLower(project)
    && '-' !in service && '.' !in service && '.' !in project
    && (service == "" ==> '-' !in project)
  }

  lemma LowerConcat(a: string, b: string)
    ensures ToLower(a + b) == ToLower(a) + ToLower(b)
  {}

  lemma LoweredIsLower(s: string)
    ensures IsLower(ToLower(s)) && (IsLower(s) <==> ToLower(s) == s)
  {
    forall i | 0 <= i < |s| ensures ToLower(s)[i] == LowerChar(s[i]) {}
  }

  /** The dot of the host that ends its first part is the printed one exactly when the names have none. */
  lemma FirstPart(front: string, domain: string)
    ensures var parts := SplitFirst(front + "." + domain, '.');
            && |parts| == 2 && |parts[0]| <= |front|
            && ('.' !in front ==> parts == [front, domain])
            && ('.' in front ==> |parts[0]| < |front|)
            && (IsLower(front) ==> IsLower(parts[0]))
  {
    var s := front + "." + domain;
    assert s == front + ['.'] + domain;
    if '.' !in front {
      SplitFirstOfJoin(front, '.', domain);
    } else {
      SplitFirstOfJoin(front[..Index(front, '.')], '.', front[Index(front, '.') + 1..] + "." + domain);
      var i := Index(front, '.');
      assert s == front[..i] + ['.'] + (front[i + 1..] + "." + domain);
    }
  }

  lemma NamesOfSeparable(service: string, project: string)
    requires Separable(service, project)
    ensures Names(Front(service, project)) == (service, project) && '.' !in Front(service, project)
    ensures IsLower(Front(service, project))
  {
    if service == "" {
      assert Front(service, project) == project;
      assert Index(project, '-') == -1;
    } else {
      assert Front(service, project) == service + ['-'] + project;
      SplitFirstOfJoin(service, '-', project);
      LowerJoin(service, project);
    }
  }

  lemma LowerJoin(a: string, b: string)
    requires IsLower(a) && IsLower(b)
    ensures IsLower(a + ['-'] + b)
  {}

  /** The names that are taken apart have no more letters than the part has. */
  lemma NamesAreParts(part: string)
    ensures var (service, project) := Names(part);
            if '-' in part
            then |part| == |service| + 1 + |project| && '-' !in service && part == service + "-" + project
            else service == "" && project == part
  {
    var i := Index(part, '-');
    if i != -1 {
      assert part == part[..i] + "-" + part[i + 1..];
    }
  }

  /** The names come back from the first part of the printed host iff they are separable. */
  lemma NamesOfHost(service: string, project: string, domain: string)
    ensures var parts := SplitFirst(ToLower(Host(service, project, domain)), '.');
            && |parts| == 2
            && (Names(parts[0]) == (service, project) <==> Separable(service, project))
            && (Separable(service, project) ==> parts[1] == ToLower(domain))
  {
    var front := Front(service, project);
    LoweredHost(service, project, domain);
    LoweredIsLower(front);
    FirstPart(ToLower(front), ToLower(domain));
    var part := SplitFirst(ToLower(front) + "." + ToLower(domain), '.')[0];
    if Separable(service, project) {
      NamesOfSeparable(service, project);
    } else if Names(part) == (service, project) {
      NamesComeBack(service, project, part);
    }
  }

  lemma LoweredHost(service: string, project: string, domain: string)
    ensures ToLower(Host(service, project, domain)) == ToLower(Front(service, project)) + "." + ToLower(domain)
  {
    LowerConcat(Front(service, project) + ".", domain);
    LowerConcat(Front(service, project), ".");
    assert ToLower(".") == ".";
  }

  lemma NamesComeBack(service: string, project: string, part: string)
    requires Names(part) == (service, project) && IsLower(part) && '.' !in part
    requires |part| <= |Front(service, project)|
    ensures Separable(service, project)
  {
    NamesAreParts(part);
    if '-' in part {
      assert part[..|service|] == service && part[|service| + 1..] == project;
    }
  }

  ghost predicate IsExpected(remotes: Entries, host: string, f: Flags) {
    Parse(Some(remotes), ParseFlags("", "", "", host)) == Parsed(Some(f), None)
  }

  /** What the parser makes of a lowered host. */
  lemma ParsedHost(remotes: Entries, host: string)
    requires host != ""
    ensures Lowered(ParseFlags("", "", "", host)) == ParseFlags("", "", "", ToLower(host))
    ensures ParseLowered(Some(remotes), Lowered(ParseFlags("", "", "", host))) ==
            ParseWithHost(Some(remotes), ToLower(host), "")
  {
    LoweringKeeps("");
    assert |ToLower(host)| == |host|;
  }

  /** A host that has no remote for its own is taken apart. */
  lemma ParsedParts(remotes: Entries, host: string)
    requires |SplitFirst(host, '.')| == 2
    ensures var parts := SplitFirst(host, '.');
            ParseHost(Some(remotes), host) ==
            ParseHostWithRemote(Some(remotes), Names(parts[0]).1, Names(parts[0]).0, host, parts[1])
  {}

  /** No remote has the whole host for its address, the names are separable, and this remote alone has the domain;
      or there are no names at all, and this remote alone has the whole host. */
  ghost predicate ParsesBack(remotes: Entries, host: string, service: string, project: string, domain: string,
                             remote: string)
  {
    || (service == "" && project == "" && OnlyOneHas(remotes, host, remote))
    || (&& NobodyHas(remotes, host) && Separable(service, project) && (service == "" || project != "")
        && domain != "" && OnlyOneHas(remotes, ToLower(domain), remote)
        && (remote != "" || HasSuffix(host, "." + CLOUD_REMOTE)))
  }

  /** The printed host parses back to exactly the service, the project and the remote, marked as from the host,
      if and only if no remote has the whole host as its address, the names are separable, there is a project
      if there is a service, and that remote alone has the domain;
      or there are no names at all, and that remote alone has the whole host. */
  lemma HostRoundTrip(remotes: Entries, service: string, project: string, domain: string, remote: string)
    ensures var host := ToLower(Host(service, project, domain));
            IsExpected(remotes, Host(service, project, domain), Flags(project, service, remote, true)) <==>
            ParsesBack(remotes, host, service, project, domain, remote)
  {
    var host := ToLower(Host(service, project, domain));
    ParsedWhole(remotes, Host(service, project, domain), Flags(project, service, remote, true));
    FoundNone(remotes, host);
    FoundOne(remotes, host, remote);
    PartsRoundTrip(remotes, service, project, domain, remote);
  }

  /** Flags come from the host as a whole, or from its parts when no remote has the whole. */
  lemma ParsedWhole(remotes: Entries, host: string, f: Flags)
    requires host != "" && f.isRemoteFromHost
    ensures var found := FoundRemotes(remotes, ToLower(host));
            IsExpected(remotes, host, f) <==>
            || (f.service == "" && f.project == "" && found == [f.remote])
            || (found == [] && ParseHost(Some(remotes), ToLower(host)) == Ok(f) && (f.service == "" || f.project != ""))
  {
    ParsedHost(remotes, host);
    assert |ToLower(host)| == |host|;
  }

  lemma PartsRoundTrip(remotes: Entries, service: string, project: string, domain: string, remote: string)
    ensures var host := ToLower(Host(service, project, domain));
            ParseHost(Some(remotes), host) == Ok(Flags(project, service, remote, true)) <==>
            && Separable(service, project)
            && domain != "" && OnlyOneHas(remotes, ToLower(domain), remote)
            && (remote != "" || HasSuffix(host, "." + CLOUD_REMOTE))
  {
    var host := ToLower(Host(service, project, domain));
    NamesOfHost(service, project, domain);
    ParsedParts(remotes, host);
    FoundOne(remotes, ToLower(domain), remote);
    assert |ToLower(domain)| == |domain|;
    if domain == "" {
      LoweredHost(service, project, domain);
      assert host[|host| - 1] == '.';
      assert |"." + CLOUD_REMOTE| == 4 && ("." + CLOUD_REMOTE)[3] == 'p';
    }
  }

  /** A project with a hyphen never comes back from a host printed without a service: the host is that of
      a service of a shorter project, and parses as such under the conditions of that one. */
  lemma HyphenatedProjectIsMisread(remotes: Entries, a: string, b: string, domain: string, remote: string)
    ensures !IsExpected(remotes, Host("", a + "-" + b, domain), Flags(a + "-" + b, "", remote, true))
    ensures a != "" ==>
              (IsExpected(remotes, Host("", a + "-" + b, domain), Flags(b, a, remote, true)) <==>
               IsExpected(remotes, Host(a, b, domain), Flags(b, a, remote, true)))
  {
    HostRoundTrip(remotes, "", a + "-" + b, domain, remote);
    assert (a + "-" + b)[|a|] == '-';
    assert a != "" ==> Host("", a + "-" + b, domain) == Host(a, b, domain);
  }

  // ----- The other outcomes of the parser -----

  /** A host without a dot names a service, and a project after the first hyphen. A remote is taken from the flag. */
  lemma ShortHostParses(remotes: Entries, service: string, project: string, remote: string, hyphen: bool)
    requires IsLower(service) && IsLower(project) && IsLower(remote) && '.' !in service && '.' !in project
    requires service != "" && '-' !in service && (!hyphen ==> project == "")
    requires remote == "" || remote in remotes
    ensures var host := if hyphen then service + "-" + project else service;
            NobodyHas(remotes, host) ==>
              Parse(Some(remotes), ParseFlags("", "", remote, host)) ==
              Parsed(Some(Flags(project, service, remote, false)),
                     if project == "" then Some(ServiceWithNoProject) else None)
  {
    var host := if hyphen then service + "-" + project else service;
    LowerShort(service, project, hyphen);
    LoweringKeeps(host);
    LoweringKeeps(remote);
    LoweringKeeps("");
    FoundNone(remotes, host);
    if hyphen {
      assert host == service + ['-'] + project;
      SplitFirstOfJoin(service, '-', project);
    }
    assert SplitFirst(host, '.') == [host];
  }

  lemma LowerShort(service: string, project: string, hyphen: bool)
    requires IsLower(service) && IsLower(project) && '.' !in service && '.' !in project
    ensures var host := if hyphen then service + "-" + project else service; IsLower(host) && '.' !in host
  {
    if hyphen {
      LowerJoin(service, project);
      assert service + "-" + project == service + ['-'] + project;
    }
  }

  /** Without a host the flags are taken as they are, in lower case; a remote among them must be listed. */
  lemma FlagsParse(remotes: Entries, pf: ParseFlags)
    requires pf.host == ""
    ensures var (project, service, remote) := (ToLower(pf.project), ToLower(pf.service), ToLower(pf.remote));
            Parse(Some(remotes), pf) ==
            if remote != "" && remote !in remotes then Parsed(None, Some(Unparsed(NotFound(remote))))
            else Parsed(Some(Flags(project, service, remote, false)),
                        if service != "" && project == "" then Some(ServiceWithNoProject) else None)
  {
    LoweringKeeps("");
  }

  /** Some domain follows the first dot of the host, and no remote has it. */
  ghost predicate UnknownDomain(remotes: Entries, host: string) {
    && '.' in host
    && var domain := host[Index(host, '.') + 1..];
       domain != "" && NobodyHas(remotes, domain)
  }

  /** A host cannot be mixed with a project or a service. */
  lemma HostIsAlone(remotes: Entries, pf: ParseFlags)
    requires pf.host != ""
    ensures Parse(Some(remotes), pf).error == Some(Unparsed(MultiMode)) <==> pf.project != "" || pf.service != ""
  {
    LowerIsEmpty(pf.host);
    LowerIsEmpty(pf.project);
    LowerIsEmpty(pf.service);
    if pf.project == "" && pf.service == "" {
      HostIsNoMix(Some(remotes), ToLower(pf.host), ToLower(pf.remote));
    }
  }

  lemma HostIsNoMix(remotes: Option<Entries>, host: string, remote: string)
    ensures ParseWithHost(remotes, host, remote) != Fail(MultiMode)
  {
    NoMixInParts(remotes, host);
    NoMixAfterParts(remotes, ParseHost(remotes, host), remote);
  }

  lemma NoMixInParts(remotes: Option<Entries>, host: string)
    ensures ParseHost(remotes, host) != Fail(MultiMode)
  {
    var parseDot := SplitFirst(host, '.');
    var parseHyphen := SplitFirst(parseDot[0], '-');
    if |parseDot| == 2 {
      NoMixWithRemote(remotes, parseHyphen[0], "", host, parseDot[1]);
      if |parseHyphen| == 2 {
        NoMixWithRemote(remotes, parseHyphen[1], parseHyphen[0], host, parseDot[1]);
      }
    }
  }

  lemma NoMixWithRemote(remotes: Option<Entries>, project: string, service: string, host: string, remoteHost: string)
    ensures ParseHostWithRemote(remotes, project, service, host, remoteHost) != Fail(MultiMode)
  {}

  lemma NoMixAfterParts(remotes: Option<Entries>, parsed: Result, remote: string)
    requires parsed != Fail(MultiMode)
    ensures WithHostParts(remotes, parsed, remote) != Fail(MultiMode)
  {}

  /** A host that several remotes have is ambiguous, and one that a single remote has leaves no room for the flag. */
  lemma HostConflicts(remotes: Entries, host: string, remote: string)
    requires host != ""
    ensures var found := FoundRemotes(remotes, ToLower(host));
            var parsed := Parse(Some(remotes), ParseFlags("", "", remote, host));
            && (|found| >= 2 ==> parsed == Parsed(None, Some(Unparsed(FoundMultipleRemote(ToLower(host), found)))))
            && (|found| == 1 && found[0] != "" && remote != "" ==>
                  parsed == Parsed(None, Some(Unparsed(RemoteFlagAndHost))))
  {
    LowerIsEmpty(host);
    LowerIsEmpty(remote);
    LowerIsEmpty("");
  }

  /** A host in a domain that no remote has is not found, and the error has the whole of it. */
  lemma UnknownHostFails(remotes: Entries, host: string, remote: string)
    requires NobodyHas(remotes, ToLower(host)) && UnknownDomain(remotes, ToLower(host))
    ensures Parse(Some(remotes), ParseFlags("", "", remote, host)) ==
            Parsed(None, Some(Unparsed(FoundNoRemote(ToLower(host)))))
  {
    LowerIsEmpty(host);
    LowerIsEmpty("");
    var h := ToLower(host);
    FoundNone(remotes, h);
    FoundNone(remotes, h[Index(h, '.') + 1..]);
    UnknownPartsFail(remotes, h);
  }

  lemma UnknownPartsFail(remotes: Entries, host: string)
    requires UnknownDomain(remotes, host) && FoundRemotes(remotes, host[Index(host, '.') + 1..]) == []
    ensures ParseHost(Some(remotes), host) == Fail(FoundNoRemote(host))
  {}

  lemma LowerIsEmpty(s: string)
    ensures ToLower(s) == "" <==> s == ""
  {
    assert |ToLower(s)| == |s|;
  }

  // ----- The remote that is finally chosen -----

  /** loadValues falls back on the cloud remote. */
  function ChosenRemote(f: Flags): string {
    if f.remote == "" then CLOUD_REMOTE else f.remote
  }

  lemma ResolvedIsListed(remotes: Entries, address: string)
    ensures var a := ParseRemoteAddress(Some(remotes), address);
            a.Resolved? && a.remote != "" ==> a.remote in remotes
  {
    FoundIsListed(remotes, address);
    var found := FoundRemotes(remotes, address);
    assert found != [] ==> found[0] in found;
  }

  ghost predicate RemoteIsListed(remotes: Entries, r: Result) {
    r.Ok? && r.flags.remote != "" ==> r.flags.remote in remotes
  }

  lemma HostRemoteIsListed(remotes: Entries, host: string)
    ensures RemoteIsListed(remotes, ParseHost(Some(remotes), host))
  {
    var parts := SplitFirst(host, '.');
    if |parts| == 2 {
      ResolvedIsListed(remotes, parts[1]);
    }
  }

  lemma FlagRemoteIsListed(remotes: Entries, f: Flags, remote: string)
    requires f.remote != "" ==> f.remote in remotes
    ensures RemoteIsListed(remotes, WithFlagRemote(Some(remotes), f, remote))
  {}

  lemma WithHostIsListed(remotes: Entries, host: string, remoteFromFlag: string)
    ensures RemoteIsListed(remotes, ParseWithHost(Some(remotes), host, remoteFromFlag))
  {
    ResolvedIsListed(remotes, host);
    HostRemoteIsListed(remotes, host);
    var r := ParseHost(Some(remotes), host);
    if r.Ok? {
      FlagRemoteIsListed(remotes, r.flags, remoteFromFlag);
    }
  }

  lemma ParsedRemoteIsListed(remotes: Entries, pf: ParseFlags)
    ensures RemoteIsListed(remotes, ParseLowered(Some(remotes), pf))
  {
    WithHostIsListed(remotes, pf.host, pf.remote);
  }

  /** With the default remote and the cloud remote in the list, whatever the host and the flags,
      whenever the parsing gives flags (even with an error), the remote finally chosen is in the list. */
  lemma ChosenRemoteIsListed(remotes: Entries, pf: ParseFlags, remoteChanged: bool, customRemote: string)
    requires customRemote in remotes && CLOUD_REMOTE in remotes
    ensures var parsed := ParseWithDefaultCustomRemote(Some(remotes), pf, remoteChanged, customRemote);
            parsed.flags.Some? ==> ChosenRemote(parsed.flags.value) in remotes
  {
    ParsedRemoteIsListed(remotes, Lowered(if remoteChanged then pf else pf.(remote := "")));
  }

  /** The default remotes change nothing but the remote; one that comes from the host is kept,
      and an empty one from the host is the cloud remote. */
  lemma HostRemoteIsKept(remotes: Option<Entries>, pf: ParseFlags, remoteChanged: bool, customRemote: string)
    ensures var p := Parse(remotes, if remoteChanged then pf else pf.(remote := ""));
            var r := ParseWithDefaultCustomRemote(remotes, pf, remoteChanged, customRemote);
            && r.error == p.error && (r.flags == None <==> p.flags == None)
            && (p.flags.Some? ==>
                  && r.flags.value.project == p.flags.value.project && r.flags.value.service == p.flags.value.service
                  && r.flags.value.isRemoteFromHost == p.flags.value.isRemoteFromHost
                  && (p.flags.value.isRemoteFromHost ==>
                        r.flags.value.remote ==
                        if p.flags.value.remote == "" then CLOUD_REMOTE else p.flags.value.remote))
  {}

  /** The url is a printed host that parses back to the remote, and no other flag says where to go. */
  ghost predicate IsPrinted(remotes: Entries, pf: ParseFlags, remoteChanged: bool, service: string, project: string,
                            domain: string, remote: string)
  {
    && pf.host == Host(service, project, domain) && pf.project == "" && pf.service == ""
    && (remoteChanged ==> pf.remote == "")
    && ParsesBack(remotes, ToLower(pf.host), service, project, domain, remote)
  }

  /** A printed host that parses back leads to its own remote, whatever the default is. */
  lemma PrintedHostIsChosen(remotes: Entries, service: string, project: string, domain: string, remote: string,
                            pf: ParseFlags, remoteChanged: bool, customRemote: string)
    requires IsPrinted(remotes, pf, remoteChanged, service, project, domain, remote)
    ensures var r := ParseWithDefaultCustomRemote(Some(remotes), pf, remoteChanged, customRemote);
            && r.error == None && r.flags.Some?
            && ChosenRemote(r.flags.value) == (if remote == "" then CLOUD_REMOTE else remote)
            && r.flags.value.service == service && r.flags.value.project == project
  {
    HostRoundTrip(remotes, service, project, domain, remote);
    HostRemoteIsKept(Some(remotes), pf, remoteChanged, customRemote);
    assert (if remoteChanged then pf else pf.(remote := "")) == ParseFlags("", "", "", pf.host);
  }

  /** When no remote comes from the host, the remote flag decides if it was given, and the default does otherwise. */
  lemma FlagThenDefault(remotes: Option<Entries>, pf: ParseFlags, remoteChanged: bool, customRemote: string)
    ensures var flags := ParseWithDefaultCustomRemote(remotes, pf, remoteChanged, customRemote).flags;
            var r := if remoteChanged then ToLower(pf.remote) else customRemote;
            flags.Some? && !flags.value.isRemoteFromHost ==>
              ChosenRemote(flags.value) == if r == "" then CLOUD_REMOTE else r
  {
    LoweringKeeps("");
    FlagRemoteStays(remotes, Lowered(if remoteChanged then pf else pf.(remote := "")));
  }

  lemma FlagRemoteStays(remotes: Option<Entries>, pf: ParseFlags)
    ensures var r := ParseLowered(remotes, pf); r.Ok? && !r.flags.isRemoteFromHost ==> r.flags.remote == pf.remote
  {
    if pf.host == "" {
      FlagRemoteIsTaken(remotes, Flags(pf.project, pf.service, "", false), pf.remote);
    } else {
      HostFlagRemoteStays(remotes, pf.host, pf.remote);
    }
  }

  lemma FlagRemoteIsTaken(remotes: Option<Entries>, f: Flags, remote: string)
    ensures var r := WithFlagRemote(remotes, f, remote);
            r.Ok? ==> r.flags == if remote == "" then f else f.(remote := remote)
  {}

  lemma HostFlagRemoteStays(remotes: Option<Entries>, host: string, remote: string)
    ensures var r := ParseWithHost(remotes, host, remote);
            r.Ok? && !r.flags.isRemoteFromHost ==> r.flags.remote == remote
  {
    HostWithoutRemote(remotes, host);
    PartsFlagRemoteStays(remotes, ParseHost(remotes, host), remote);
  }

  lemma PartsFlagRemoteStays(remotes: Option<Entries>, parsed: Result, remote: string)
    requires parsed.Ok? && !parsed.flags.isRemoteFromHost ==> parsed.flags.remote == ""
    ensures var r := WithHostParts(remotes, parsed, remote);
            r.Ok? && !r.flags.isRemoteFromHost ==> r.flags.remote == remote
  {
    if parsed.Ok? {
      FlagRemoteIsTaken(remotes, parsed.flags, remote);
    }
  }

  lemma HostWithoutRemote(remotes: Option<Entries>, host: string)
    ensures var r := ParseHost(remotes, host); r.Ok? && !r.flags.isRemoteFromHost ==> r.flags.remote == ""
  {
    var parseDot := SplitFirst(host, '.');
    var parseHyphen := SplitFirst(parseDot[0], '-');
    if |parseDot| == 2 {
      RemoteIsMarked(remotes, parseHyphen[0], "", host, parseDot[1]);
      if |parseHyphen| == 2 {
        RemoteIsMarked(remotes, parseHyphen[1], parseHyphen[0], host, parseDot[1]);
      }
    }
  }

  lemma RemoteIsMarked(remotes: Option<Entries>, project: string, service: string, host: string, remoteHost: string)
    ensures var r := ParseHostWithRemote(remotes, project, service, host, remoteHost);
            r.Ok? && !r.flags.isRemoteFromHost ==> r.flags.remote == ""
  {}
}
