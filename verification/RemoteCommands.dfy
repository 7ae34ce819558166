/** command/remote/remote.go, command/remote/default.go: the remote commands, each one a load, a change and a save. */
module RemoteCommands {
  import opened Sequences
  import opened Text
  import opened Remotes
  import opened SectionNames
  import opened ConfigStore

  datatype Command =
    | Set(name: string, url: string)
    | SetURL(name: string, url: string)
    | Remove(name: string)
    | Default(name: string)
    | Rename(from: string, name: string)

  /** The parameters to save, or None when the command fails and saves nothing. */
  function Change(p: Params, c: Command): Option<Params> {
    match c
    case Set(name, url) => Some(p.(remotes := p.remotes[name := NO_ENTRY.(infrastructure := url)]))
    case SetURL(name, url) =>
      if name !in p.remotes then None
      else Some(p.(remotes := p.remotes[name := p.remotes[name].(infrastructure := url)]))
    case Remove(name) =>
      if name !in p.remotes then None
      else Some(Params(if name == p.defaultRemote && name != CLOUD_REMOTE then CLOUD_REMOTE else p.defaultRemote,
                       p.remotes - {name}))
    case Default(name) => if name in p.remotes then Some(p.(defaultRemote := name)) else None
    case Rename(from, name) =>
      if from !in p.remotes || name in p.remotes then None
      else Some(p.(remotes := (p.remotes - {from})[name := p.remotes[from]]))
  }

  /** The configuration file after one command, run in a process of its own. */
  function Execute(stored: Option<File>, c: Command): Option<File> {
    if !Accepted(stored) then stored
    else
      match Change(LoadParams(stored), c)
      case None => stored
      case Some(p) => Some(SaveParams(LoadedFile(stored), p))
  }

  function ExecuteAll(stored: Option<File>, cs: seq<Command>): Option<File> {
    if cs == [] then stored else Execute(ExecuteAll(stored, cs[..|cs| - 1]), cs[|cs| - 1])
  }

  /** Whatever is loaded, the cloud remote is there, with an address. */
  lemma CloudRemoteIsLoaded(stored: Option<File>)
    ensures var p := LoadParams(stored); CLOUD_REMOTE in p.remotes && p.remotes[CLOUD_REMOTE].infrastructure != ""
  {}

  lemma LoadedNamesHaveOneLine(stored: Option<File>, name: string)
    requires name in LoadParams(stored).remotes
    ensures '\n' !in name
  {
    if stored.Some? && name in ListRemotes(stored.value) {
      ParsedNamesHaveOneLine(stored.value, name);
    }
  }

  /** After a save, loading succeeds iff the default is the cloud remote or is still named by some section. */
  lemma AcceptedAfterSave(file: File, p: Params)
    ensures Accepted(Some(SaveParams(file, p))) <==>
            || p.defaultRemote == "" || p.defaultRemote == CLOUD_REMOTE
            || p.defaultRemote in ListRemotes(SaveParams(file, p))
  {
    var saved := SaveParams(file, p);
    DefaultRoundTrip(file, p);
    CloudRemoteIsLoaded(Some(saved));
  }

  lemma ListedDefaultIsAccepted(file: File, p: Params)
    requires p.defaultRemote == CLOUD_REMOTE || (p.defaultRemote in p.remotes && '\n' !in p.defaultRemote)
    ensures Accepted(Some(SaveParams(file, p)))
  {
    AcceptedAfterSave(file, p);
    if p.defaultRemote in p.remotes && '\n' !in p.defaultRemote {
      ParseInvertsPrint(p.defaultRemote);
      assert PrintsAs(p.defaultRemote, p.defaultRemote);
      ListAfterSave(file, p, p.defaultRemote);
    }
  }

  lemma ChangeKeepsDefault(p: Params, c: Command)
    requires IsValid(p) && !c.Rename? && Change(p, c).Some?
    ensures var q := Change(p, c).value;
            q.defaultRemote == CLOUD_REMOTE || (q.defaultRemote in q.remotes && q.defaultRemote in p.remotes)
  {}

  lemma CommandKeepsDefault(stored: Option<File>, c: Command)
    requires Accepted(stored) && !c.Rename?
    ensures Accepted(Execute(stored, c))
  {
    var p := LoadParams(stored);
    if Change(p, c).Some? {
      var q := Change(p, c).value;
      ChangeKeepsDefault(p, c);
      if q.defaultRemote in p.remotes {
        LoadedNamesHaveOneLine(stored, q.defaultRemote);
      }
      ListedDefaultIsAccepted(LoadedFile(stored), q);
    }
  }

  /** After every sequence of set, set-url, rm and default commands, with any names and addresses, on a configuration
      that loads or on none at all, the configuration loads, with the cloud remote and the default remote present. */
  lemma {:induction false} DefaultStaysValid(stored: Option<File>, cs: seq<Command>)
    requires stored == None || Accepted(stored)
    requires forall c :: c in cs ==> !c.Rename?
    ensures Accepted(ExecuteAll(stored, cs))
    ensures var p := LoadParams(ExecuteAll(stored, cs)); p.defaultRemote in p.remotes && CLOUD_REMOTE in p.remotes
  {
    CloudRemoteIsLoaded(ExecuteAll(stored, cs));
    if cs == [] {
    } else {
      assert forall c :: c in cs[..|cs| - 1] ==> c in cs;
      DefaultStaysValid(stored, cs[..|cs| - 1]);
      CommandKeepsDefault(ExecuteAll(stored, cs[..|cs| - 1]), cs[|cs| - 1]);
    }
  }

  /** After a rename, only the new name can print as the old one. */
  lemma OnlyTheNewNamePrints(p: Params, from: string, name: string)
    requires Change(p, Rename(from, name)).Some? && forall n :: n in p.remotes ==> '\n' !in n
    ensures (exists n :: n in Change(p, Rename(from, name)).value.remotes && PrintsAs(n, from)) <==>
            PrintsAs(name, from)
  {
    var q := Change(p, Rename(from, name)).value;
    assert name in q.remotes;
    forall n | n in q.remotes && n != name ensures !PrintsAs(n, from) {
      ParseInvertsPrint(n);
    }
  }

  lemma RenamedDefault(file: File, p: Params, from: string, name: string)
    requires Change(p, Rename(from, name)).Some? && forall n :: n in p.remotes ==> '\n' !in n
    requires p.defaultRemote != ""
    ensures Accepted(Some(SaveParams(file, Change(p, Rename(from, name)).value))) <==>
            || (from != p.defaultRemote && p.defaultRemote in p.remotes) || p.defaultRemote == CLOUD_REMOTE
            || p.defaultRemote in ListRemotes(SaveParams(file, Change(p, Rename(from, name)).value))
  {
    var q := Change(p, Rename(from, name)).value;
    if from != p.defaultRemote && p.defaultRemote in p.remotes {
      ListedDefaultIsAccepted(file, q);
    } else {
      AcceptedAfterSave(file, q);
    }
  }

  lemma ListedAfterRename(file: File, p: Params, from: string, name: string)
    requires Change(p, Rename(from, name)).Some? && forall n :: n in p.remotes ==> '\n' !in n
    ensures from in ListRemotes(SaveParams(file, Change(p, Rename(from, name)).value)) <==>
            NamedInPart(file, from) || PrintsAs(name, from)
  {
    ListAfterSave(file, Change(p, Rename(from, name)).value, from);
    OnlyTheNewNamePrints(p, from, name);
  }

  /** Reading creates only sections that are printed names, so it names no remote in part. */
  lemma NamedInPartOfLoaded(file: File, name: string)
    ensures NamedInPart(AfterReading(file), name) <==> NamedInPart(file, name)
  {
    if NamedInPart(file, name) {
      var s :| s in file && ParseRemoteSectionName(s) == Some(name) && s != RemoteSection(name);
      assert s in AfterReading(file);
    }
    if NamedInPart(AfterReading(file), name) {
      var s :| s in AfterReading(file) && ParseRemoteSectionName(s) == Some(name) && s != RemoteSection(name);
      if n :| n in ListRemotes(file) && s == RemoteSection(n) {
        ParsedNamesHaveOneLine(file, n);
        ParseInvertsPrint(n);
      }
    }
  }

  /** A rename that goes through leaves a configuration that loads, unless the old name was the default
      (other than the cloud remote) and no section names it any more. */
  lemma RenameKeepsDefaultIff(stored: Option<File>, from: string, name: string)
    requires Accepted(stored) && Change(LoadParams(stored), Rename(from, name)).Some?
    ensures Accepted(Execute(stored, Rename(from, name))) <==>
            || from != LoadParams(stored).defaultRemote || from == CLOUD_REMOTE
            || (stored.Some? && NamedInPart(stored.value, from)) || PrintsAs(name, from)
  {
    var p, file := LoadParams(stored), LoadedFile(stored);
    assert forall n :: n in p.remotes ==> '\n' !in n by {
      forall n | n in p.remotes ensures '\n' !in n {
        LoadedNamesHaveOneLine(stored, n);
      }
    }
    DefaultIsNotEmpty(stored);
    RenamedDefault(file, p, from, name);
    ListedAfterRename(file, p, from, name);
    if stored.Some? {
      NamedInPartOfLoaded(stored.value, from);
    }
  }

  lemma DefaultIsNotEmpty(stored: Option<File>)
    ensures LoadParams(stored).defaultRemote != ""
  {}

  // ----- What the commands are for -----

  /** The next process loads exactly the parameters that a command left if and only if they can be read back,
      there is a default remote, and the cloud remote has an address. */
  lemma NextLoadSeesTheChange(stored: Option<File>, c: Command, p: Params)
    requires Accepted(stored)
    ensures Change(LoadParams(stored), c) == Some(p) ==>
              (LoadParams(Execute(stored, c)) == p <==>
               Readable(LoadedFile(stored), p.remotes) && p.defaultRemote != "" && HasCloudAddress(p.remotes))
  {
    LoadInvertsSave(LoadedFile(stored), p);
  }

  /** What can be read back is loaded with the cloud remote and a default remote put in. */
  lemma NextLoadCompletesTheChange(stored: Option<File>, c: Command, p: Params)
    requires Accepted(stored)
    ensures Change(LoadParams(stored), c) == Some(p) && Readable(LoadedFile(stored), p.remotes) ==>
              LoadParams(Execute(stored, c)) ==
              Params(if p.defaultRemote == "" then CLOUD_REMOTE else p.defaultRemote, WithCloudRemote(p.remotes))
  {
    if Change(LoadParams(stored), c) == Some(p) && Readable(LoadedFile(stored), p.remotes) {
      ReadableRoundTrips(LoadedFile(stored), p);
      DefaultRoundTrip(LoadedFile(stored), p);
    }
  }

  lemma LoadedIsTrimmed(stored: Option<File>, name: string)
    requires name in LoadParams(stored).remotes
    ensures IsTrimmed(LoadParams(stored).remotes[name])
  {
    if stored.Some? && name in ReadRemotes(stored.value) {
      var section := SectionOf(stored.value, RemoteSection(name));
      TrimmedTwice(RawEntry(section));
      assert ReadEntry(section) == Trimmed(RawEntry(section));
    }
    CloudEntryIsTrimmed();
  }

  /** The fields of a section as they stand in the file. */
  function RawEntry(section: Section): Entry {
    Entry(KeyOf(section, "infrastructure").value, KeyOf(section, "infrastructure").comment,
          KeyOf(section, "service").value, KeyOf(section, "service").comment,
          KeyOf(section, "username").value, KeyOf(section, "username").comment,
          KeyOf(section, "token").value, KeyOf(section, "token").comment, section.comment)
  }

  lemma CloudEntryIsTrimmed()
    ensures IsTrimmed(DEFAULT_CLOUD_ENTRY)
  {
    var c := "Default cloud remote";
    assert !IsSpace(c[0]) && !IsSpace(c[|c| - 1]);
    assert TrimLeft(c) == c;
    AddressHasNoSpace();
  }

  function TrimmedAll(remotes: Entries): Entries {
    map name | name in remotes :: Trimmed(remotes[name])
  }

  /** An empty entry for a name that is no longer listed but still named in part. */
  function WithPart(file: File, remotes: Entries, gone: string): Entries {
    if gone !in remotes && NamedInPart(file, gone) then remotes[gone := NO_ENTRY] else remotes
  }

  lemma ReadBack(file: File, p: Params, gone: string)
    requires forall n :: n in p.remotes ==> '\n' !in n
    requires forall n :: NamedInPart(file, n) ==> n in p.remotes || n == gone
    ensures ReadRemotes(SaveParams(file, p)) == WithPart(file, TrimmedAll(p.remotes), gone)
  {
    var back := ReadRemotes(SaveParams(file, p));
    var all := WithPart(file, TrimmedAll(p.remotes), gone);
    forall name ensures name in back <==> name in all {
      ReadAfterSave(file, p, name);
    }
    forall name | name in all ensures back[name] == all[name] {
      ReadAfterSave(file, p, name);
    }
    SameEntries(back, all);
  }

  /** What the next process loads after the parameters were saved over those loaded, with at most one name gone. */
  lemma Reloads(stored: Option<File>, p: Params, gone: string)
    requires forall n :: n in p.remotes ==> '\n' !in n
    requires forall n :: n in LoadParams(stored).remotes ==> n in p.remotes || n == gone
    ensures LoadParams(Some(SaveParams(LoadedFile(stored), p))) ==
            Params(if p.defaultRemote == "" then CLOUD_REMOTE else p.defaultRemote,
                   WithCloudRemote(WithPart(LoadedFile(stored), TrimmedAll(p.remotes), gone)))
  {
    var file := LoadedFile(stored);
    forall n | NamedInPart(file, n) ensures n in p.remotes || n == gone {
      PartIsLoaded(stored, n);
    }
    ReadBack(file, p, gone);
    DefaultRoundTrip(file, p);
  }

  lemma PartIsLoaded(stored: Option<File>, name: string)
    requires NamedInPart(LoadedFile(stored), name)
    ensures name in LoadParams(stored).remotes
  {
    match stored
    case Some(file) =>
      NamedInPartOfLoaded(file, name);
      PartOfListed(file, name);
    case None => DefaultIsNoRemote();
  }

  lemma AllTrimmed(remotes: Entries)
    requires forall n :: n in remotes ==> IsTrimmed(remotes[n])
    ensures TrimmedAll(remotes) == remotes
  {}

  /** What every load makes sure of. */
  ghost predicate IsLoaded(p: Params) {
    && p.defaultRemote != "" && TrimmedAll(p.remotes) == p.remotes
    && CLOUD_REMOTE in p.remotes && p.remotes[CLOUD_REMOTE].infrastructure != ""
    && forall n :: n in p.remotes ==> '\n' !in n
  }

  lemma LoadedIsLoaded(stored: Option<File>)
    ensures IsLoaded(LoadParams(stored))
  {
    CloudRemoteIsLoaded(stored);
    DefaultIsNotEmpty(stored);
    forall n | n in LoadParams(stored).remotes ensures '\n' !in n && IsTrimmed(LoadParams(stored).remotes[n]) {
      LoadedNamesHaveOneLine(stored, n);
      LoadedIsTrimmed(stored, n);
    }
    AllTrimmed(LoadParams(stored).remotes);
  }

  /** What the next process loads after a command that goes through. */
  lemma ExecutionLoads(stored: Option<File>, c: Command, p: Params, q: Params, gone: string)
    requires Accepted(stored) && p == LoadParams(stored) && Change(p, c) == Some(q)
    requires forall n :: n in q.remotes ==> '\n' !in n
    requires forall n :: n in p.remotes ==> n in q.remotes || n == gone
    ensures Execute(stored, c) == Some(SaveParams(LoadedFile(stored), q))
    ensures LoadParams(Execute(stored, c)) ==
            Params(if q.defaultRemote == "" then CLOUD_REMOTE else q.defaultRemote,
                   WithCloudRemote(WithPart(LoadedFile(stored), TrimmedAll(q.remotes), gone)))
  {
    Reloads(stored, q, gone);
  }

  /** The command goes through, and no name is gone. */
  ghost predicate Keeps(p: Params, c: Command, q: Params) {
    && IsLoaded(p) && Change(p, c) == Some(q)
    && (forall n :: n in q.remotes ==> '\n' !in n)
    && forall n :: n in p.remotes ==> n in q.remotes
  }

  /** The command goes through, and one name is gone. */
  ghost predicate Loses(p: Params, c: Command, q: Params, gone: string) {
    && IsLoaded(p) && Change(p, c) == Some(q) && q.defaultRemote != ""
    && (forall n :: n in q.remotes ==> '\n' !in n)
    && gone !in q.remotes && forall n :: n in p.remotes ==> n in q.remotes || n == gone
  }

  /** As long as no name is gone, what was saved is loaded. */
  lemma ExecutionKeeps(stored: Option<File>, c: Command, q: Params)
    requires Accepted(stored) && Keeps(LoadParams(stored), c, q)
    ensures LoadParams(Execute(stored, c)) ==
            Params(if q.defaultRemote == "" then "lcp" else q.defaultRemote, WithCloudRemote(TrimmedAll(q.remotes)))
  {
    ExecutionLoads(stored, c, LoadParams(stored), q, CLOUD_REMOTE);
    assert CLOUD_REMOTE in TrimmedAll(q.remotes);
  }

  /** Otherwise a name that is given in part stays, empty. */
  lemma ExecutionLoses(stored: Option<File>, c: Command, q: Params, gone: string)
    requires Accepted(stored) && Loses(LoadParams(stored), c, q, gone)
    ensures LoadParams(Execute(stored, c)) ==
            Params(q.defaultRemote, WithCloudRemote(KeptOf(NamedInPart(LoadedFile(stored), gone), q.remotes, gone)))
    ensures Execute(stored, c) == Some(SaveParams(LoadedFile(stored), q))
  {
    ExecutionLoads(stored, c, LoadParams(stored), q, gone);
  }

  function KeptOf(part: bool, remotes: Entries, gone: string): Entries {
    if part then TrimmedAll(remotes)[gone := NO_ENTRY] else TrimmedAll(remotes)
  }

  /** The standard cloud remote. */
  const STANDARD := Entry("liferay.cloud", "Default cloud remote", "", "", "", "", "", "", "")

  function AddressOnly(url: string): Entry {
    Entry(url, "", "", "", "", "", "", "", "")
  }

  lemma TrimmedUpdate(remotes: Entries, name: string, e: Entry)
    requires TrimmedAll(remotes) == remotes
    ensures TrimmedAll(remotes[name := e]) == remotes[name := Trimmed(e)]
  {
    var a, b := TrimmedAll(remotes[name := e]), remotes[name := Trimmed(e)];
    forall n | n in b ensures n in a && a[n] == b[n] {
      assert n != name ==> TrimmedAll(remotes)[n] == remotes[n];
    }
    SameEntries(a, b);
  }

  lemma TrimmedWithout(remotes: Entries, name: string)
    requires TrimmedAll(remotes) == remotes
    ensures TrimmedAll(remotes - {name}) == remotes - {name}
  {
    var a, b := TrimmedAll(remotes - {name}), remotes - {name};
    forall n | n in b ensures n in a && a[n] == b[n] {
      assert TrimmedAll(remotes)[n] == remotes[n];
    }
    SameEntries(a, b);
  }

  lemma TrimmedAddress(url: string, e: Entry)
    ensures Trimmed(AddressOnly(url)) == AddressOnly(TrimSpace(url))
    ensures IsTrimmed(e) ==> Trimmed(e.(infrastructure := url)) == e.(infrastructure := TrimSpace(url))
  {}

  /** An update keeps the cloud remote, unless it takes its address away. */
  lemma CloudAfterUpdate(remotes: Entries, name: string, e: Entry)
    requires CLOUD_REMOTE in remotes && remotes[CLOUD_REMOTE].infrastructure != ""
    ensures WithCloudRemote(remotes[name := e]) ==
            if name == "lcp" && e.infrastructure == "" then remotes["lcp" := STANDARD] else remotes[name := e]
  {}

  lemma CloudAfterRemoval(remotes: Entries, name: string, part: bool)
    requires CLOUD_REMOTE in remotes && remotes[CLOUD_REMOTE].infrastructure != ""
    ensures var kept := remotes - {name};
            WithCloudRemote(if part then kept[name := NO_ENTRY] else kept) ==
            if name == "lcp" then remotes["lcp" := STANDARD]
            else if part then remotes[name := NO_ENTRY]
            else kept
  {
    assert (remotes - {name})[name := NO_ENTRY] == remotes[name := NO_ENTRY];
    if name == "lcp" {
      assert (remotes - {name})["lcp" := STANDARD] == remotes["lcp" := STANDARD];
    }
  }

  lemma EntryIsTrimmed(p: Params, name: string)
    requires IsLoaded(p) && name in p.remotes
    ensures Trimmed(p.remotes[name]) == p.remotes[name]
  {
    assert TrimmedAll(p.remotes)[name] == p.remotes[name];
  }

  lemma SetOnLoaded(p: Params, name: string, url: string, q: Params)
    requires IsLoaded(p) && '\n' !in name && q == p.(remotes := p.remotes[name := AddressOnly(url)])
    ensures Keeps(p, Set(name, url), q)
    ensures WithCloudRemote(TrimmedAll(q.remotes)) ==
            if name == "lcp" && TrimSpace(url) == "" then p.remotes["lcp" := STANDARD]
            else p.remotes[name := AddressOnly(TrimSpace(url))]
  {
    TrimmedUpdate(p.remotes, name, AddressOnly(url));
    TrimmedAddress(url, NO_ENTRY);
    CloudAfterUpdate(p.remotes, name, AddressOnly(TrimSpace(url)));
  }

  lemma SetURLOnLoaded(p: Params, name: string, url: string, q: Params)
    requires IsLoaded(p) && name in p.remotes
    requires q == p.(remotes := p.remotes[name := p.remotes[name].(infrastructure := url)])
    ensures Keeps(p, SetURL(name, url), q)
    ensures WithCloudRemote(TrimmedAll(q.remotes)) ==
            if name == "lcp" && TrimSpace(url) == "" then p.remotes["lcp" := STANDARD]
            else p.remotes[name := p.remotes[name].(infrastructure := TrimSpace(url))]
  {
    var e := p.remotes[name];
    EntryIsTrimmed(p, name);
    TrimmedUpdate(p.remotes, name, e.(infrastructure := url));
    TrimmedAddress(url, e);
    CloudAfterUpdate(p.remotes, name, e.(infrastructure := TrimSpace(url)));
  }

  lemma DefaultOnLoaded(p: Params, name: string)
    requires IsLoaded(p) && name in p.remotes
    ensures Keeps(p, Default(name), Params(name, p.remotes))
    ensures WithCloudRemote(TrimmedAll(p.remotes)) == p.remotes
  {}

  lemma RemoveOnLoaded(p: Params, name: string, q: Params, part: bool)
    requires IsLoaded(p) && name in p.remotes
    requires q == Params(if name == p.defaultRemote then "lcp" else p.defaultRemote, p.remotes - {name})
    ensures Loses(p, Remove(name), q, name)
    ensures WithCloudRemote(KeptOf(part, q.remotes, name)) ==
            if name == "lcp" then p.remotes["lcp" := STANDARD]
            else if part then p.remotes[name := NO_ENTRY]
            else p.remotes - {name}
  {
    TrimmedWithout(p.remotes, name);
    CloudAfterRemoval(p.remotes, name, part);
  }

  lemma RenameOnLoaded(p: Params, from: string, name: string, q: Params)
    requires IsLoaded(p) && '\n' !in name && from in p.remotes && name !in p.remotes
    requires q == p.(remotes := (p.remotes - {from})[name := p.remotes[from]])
    ensures Loses(p, Rename(from, name), q, from)
  {}

  lemma MovedIsLoaded(p: Params, from: string, name: string, part: bool)
    requires IsLoaded(p) && from in p.remotes && name !in p.remotes
    ensures var moved := p.remotes[name := p.remotes[from]];
            WithCloudRemote(KeptOf(part, (p.remotes - {from})[name := p.remotes[from]], from)) ==
            if from == "lcp" then moved["lcp" := STANDARD]
            else if part then moved[from := NO_ENTRY]
            else moved - {from}
  {
    var moved := p.remotes[name := p.remotes[from]];
    assert (p.remotes - {from})[name := p.remotes[from]] == moved - {from};
    EntryIsTrimmed(p, from);
    TrimmedUpdate(p.remotes, name, p.remotes[from]);
    TrimmedWithout(moved, from);
    KeptIs(part, moved - {from}, from);
    CloudAfterRemoval(moved, from, part);
  }

  lemma KeptIs(part: bool, remotes: Entries, gone: string)
    requires TrimmedAll(remotes) == remotes
    ensures KeptOf(part, remotes, gone) == if part then remotes[gone := NO_ENTRY] else remotes
  {}

  /** remote set: afterwards the remote has the address alone, without white space around it. */
  lemma SetIsSeen(stored: Option<File>, name: string, url: string)
    requires Accepted(stored) && '\n' !in name
    ensures var (before, after) := (LoadParams(stored), LoadParams(Execute(stored, Set(name, url))));
            after == Params(
              before.defaultRemote,
              if name == "lcp" && TrimSpace(url) == "" then before.remotes["lcp" := STANDARD]
              else before.remotes[name := AddressOnly(TrimSpace(url))])
  {
    LoadedIsLoaded(stored);
    var p := LoadParams(stored);
    var q := p.(remotes := p.remotes[name := AddressOnly(url)]);
    SetOnLoaded(p, name, url, q);
    ExecutionKeeps(stored, Set(name, url), q);
  }

  /** remote set-url: the address changes, and nothing else. */
  lemma SetURLIsSeen(stored: Option<File>, name: string, url: string)
    requires Accepted(stored) && name in LoadParams(stored).remotes
    ensures var (before, after) := (LoadParams(stored), LoadParams(Execute(stored, SetURL(name, url))));
            after == Params(
              before.defaultRemote,
              if name == "lcp" && TrimSpace(url) == "" then before.remotes["lcp" := STANDARD]
              else before.remotes[name := before.remotes[name].(infrastructure := TrimSpace(url))])
  {
    LoadedIsLoaded(stored);
    var p := LoadParams(stored);
    var q := p.(remotes := p.remotes[name := p.remotes[name].(infrastructure := url)]);
    SetURLOnLoaded(p, name, url, q);
    ExecutionKeeps(stored, SetURL(name, url), q);
  }

  /** remote rm: the remote is gone, with its section, and a default that pointed to it is the cloud remote again.
      The cloud remote comes back in its standard form, and a name that is given in part stays, empty. */
  lemma RemoveIsSeen(stored: Option<File>, name: string)
    requires Accepted(stored) && name in LoadParams(stored).remotes
    ensures var (before, after) := (LoadParams(stored), LoadParams(Execute(stored, Remove(name))));
            after == Params(
              if before.defaultRemote == name then "lcp" else before.defaultRemote,
              if name == "lcp" then before.remotes["lcp" := STANDARD]
              else if NamedInPart(LoadedFile(stored), name) then before.remotes[name := NO_ENTRY]
              else before.remotes - {name})
    ensures Execute(stored, Remove(name)).Some?
    ensures RemoteSection(name) !in Execute(stored, Remove(name)).value
  {
    LoadedIsLoaded(stored);
    var p := LoadParams(stored);
    var q := Params(if name == p.defaultRemote then "lcp" else p.defaultRemote, p.remotes - {name});
    RemoveOnLoaded(p, name, q, NamedInPart(LoadedFile(stored), name));
    ExecutionLoses(stored, Remove(name), q, name);
    RemovedSectionIsGone(stored, q, name);
  }

  lemma RemovedSectionIsGone(stored: Option<File>, q: Params, name: string)
    requires name in LoadParams(stored).remotes && name !in q.remotes
    ensures RemoteSection(name) !in SaveParams(LoadedFile(stored), q)
  {
    NameRoundTrip(name);
    DefaultIsNoRemote();
    SavedSections(LoadedFile(stored), q, RemoteSection(name));
    LoadedNamesHaveOneLine(stored, name);
    ParseInvertsPrint(name);
  }

  /** remote default: the default is the remote, and nothing else changes; an empty name means the cloud remote. */
  lemma DefaultIsSeen(stored: Option<File>, name: string)
    requires Accepted(stored) && name in LoadParams(stored).remotes
    ensures LoadParams(Execute(stored, Default(name))) ==
            Params(if name == "" then "lcp" else name, LoadParams(stored).remotes)
  {
    LoadedIsLoaded(stored);
    DefaultOnLoaded(LoadParams(stored), name);
    ExecutionKeeps(stored, Default(name), Params(name, LoadParams(stored).remotes));
  }

  /** remote rename: the entry is under the new name. The old one is gone, unless it is given in part or is the cloud
      remote. */
  lemma RenameIsSeen(stored: Option<File>, from: string, name: string)
    requires Accepted(stored) && '\n' !in name
    requires from in LoadParams(stored).remotes && name !in LoadParams(stored).remotes
    ensures var (before, after) := (LoadParams(stored), LoadParams(Execute(stored, Rename(from, name))));
            var moved := before.remotes[name := before.remotes[from]];
            after == Params(
              before.defaultRemote,
              if from == "lcp" then moved["lcp" := STANDARD]
              else if NamedInPart(LoadedFile(stored), from) then moved[from := NO_ENTRY]
              else moved - {from})
  {
    LoadedIsLoaded(stored);
    var p := LoadParams(stored);
    var q := p.(remotes := (p.remotes - {from})[name := p.remotes[from]]);
    RenameOnLoaded(p, from, name, q);
    MovedIsLoaded(p, from, name, NamedInPart(LoadedFile(stored), from));
    ExecutionLoses(stored, Rename(from, name), q, from);
  }

  lemma RefusedStays(stored: Option<File>, c: Command, p: Params)
    requires p == LoadParams(stored) && Change(p, c) == None
    ensures Execute(stored, c) == stored
  {}

  /** A command about a remote that is not listed, or a rename to one that is, changes nothing. */
  lemma RefusedChangesNothing(stored: Option<File>, name: string, other: string, p: Params)
    requires p == LoadParams(stored)
    ensures name !in p.remotes ==>
              && Execute(stored, Remove(name)) == stored && Execute(stored, SetURL(name, other)) == stored
              && Execute(stored, Default(name)) == stored && Execute(stored, Rename(name, other)) == stored
    ensures other in p.remotes ==> Execute(stored, Rename(name, other)) == stored
  {
    if name !in p.remotes {
      RefusedStays(stored, Remove(name), p);
      RefusedStays(stored, SetURL(name, other), p);
      RefusedStays(stored, Default(name), p);
    }
    if name !in p.remotes || other in p.remotes {
      RefusedStays(stored, Rename(name, other), p);
    }
  }

  /** Renaming back undoes a rename; setting the old address back undoes a set-url. */
  lemma CommandsAreUndone(p: Params, from: string, name: string, url: string)
    ensures Change(p, Rename(from, name)).Some? ==>
              Change(Change(p, Rename(from, name)).value, Rename(name, from)) == Some(p)
    ensures from in p.remotes ==>
              Change(Change(p, SetURL(from, url)).value, SetURL(from, p.remotes[from].infrastructure)) == Some(p)
  {
    if Change(p, Rename(from, name)).Some? {
      var q := Change(p, Rename(from, name)).value;
      assert (q.remotes - {name})[from := q.remotes[name]] == p.remotes;
    }
    if from in p.remotes {
      var q := Change(p, SetURL(from, url)).value;
      assert q.remotes[from := p.remotes[from]] == p.remotes;
    }
  }

  // ----- What can go wrong -----

  lemma ReadSection(file: File, name: string)
    requires name in ListRemotes(file)
    ensures RemoteSection(name) in AfterReading(file)
    ensures RemoteSection(name) !in file ==> AfterReading(file)[RemoteSection(name)].keys.Keys == FIELDS
    ensures name in ReadRemotes(file) && ReadRemotes(file)[name] == ReadEntry(SectionOf(file, RemoteSection(name)))
  {
    assert RemoteSection(name) in NamedSections(ListRemotes(file));
  }

  lemma PartOfListed(file: File, name: string)
    requires NamedInPart(file, name)
    ensures name in ListRemotes(file) && '\n' !in name
  {
    var s :| s in file && ParseRemoteSectionName(s) == Some(name);
    ParsedHasOneLine(s, 0);
  }

  lemma PartStaysListed(file: File, p: Params, name: string)
    requires NamedInPart(file, name)
    ensures name in ListRemotes(SaveParams(AfterReading(file), p))
  {
    NamedInPartOfLoaded(file, name);
    ListAfterSave(AfterReading(file), p, name);
  }

  /** A remote that is only named in part is loaded with an empty entry, and is given a section. */
  lemma EmptySectionComes(file: File, name: string)
    requires NamedInPart(file, name) && RemoteSection(name) !in file
    ensures name in ReadRemotes(file) && ReadRemotes(file)[name] == NO_ENTRY
    ensures RemoteSection(name) in AfterReading(file)
    ensures AfterReading(file)[RemoteSection(name)].keys.Keys == FIELDS && NamedInPart(AfterReading(file), name)
  {
    NamedInPartOfLoaded(file, name);
    PartOfListed(file, name);
    ReadSection(file, name);
    NoSectionReads();
  }

  /** A save that keeps the entry empty deletes the section, and the remote stays listed. */
  lemma EmptySectionGoes(file: File, p: Params, name: string)
    requires NamedInPart(file, name) && SectionOf(file, RemoteSection(name)).keys.Keys <= FIELDS
    requires name in p.remotes && p.remotes[name] == NO_ENTRY
    ensures RemoteSection(name) !in SaveParams(file, p)
    ensures name in ListRemotes(SaveParams(file, p))
  {
    PartOfListed(file, name);
    ListAfterSave(file, p, name);
    EmptyRemoteIsLost(file, p, name);
  }

  /** A remote that is named in part cannot be removed. */
  lemma NamedInPartStays(file: File, name: string)
    requires NamedInPart(file, name) && Accepted(Some(file))
    ensures Change(LoadParams(Some(file)), Remove(name)).Some?
    ensures name in LoadParams(Execute(Some(file), Remove(name))).remotes
  {
    PartOfListed(file, name);
    var p := Change(LoadParams(Some(file)), Remove(name)).value;
    PartStaysListed(file, p, name);
    assert Execute(Some(file), Remove(name)) == Some(SaveParams(AfterReading(file), p));
  }

  const PARTIAL := "x remote \"a\""

  lemma PartialNames()
    ensures ParseRemoteSectionName(PARTIAL) == Some("a") && PARTIAL != RemoteSection("a")
  {
    assert PARTIAL[0..8][0] == 'x' && PARTIAL[1..9][0] == ' ' && OPENING[0] == 'r';
    assert PARTIAL[2..10] == OPENING;
    assert PARTIAL[10..] == "a\"" && PARTIAL[10..|PARTIAL|] == "a\"";
    LineEndIs(PARTIAL, 10);
    assert LastQuote("a\"") == 1 && "a\""[..1] == "a";
    assert ParseFrom(PARTIAL, 2) == Some("a");
    assert ParseFrom(PARTIAL, 1) == Some("a");
  }

  /** One such file: it loads, and names the remote a in part only. */
  lemma PartialSectionExample()
    ensures var file: File := map[PARTIAL := NO_SECTION];
            && Accepted(Some(file)) && NamedInPart(file, "a") && RemoteSection("a") !in file
  {
    PartialNames();
    var file: File := map[PARTIAL := NO_SECTION];
    assert PARTIAL in file;
    assert DEFAULT_SECTION !in file by {
      assert |DEFAULT_SECTION| == 7 && |PARTIAL| == 12;
    }
    CloudRemoteIsLoaded(Some(file));
  }

  /** Loading such a file and saving it without a change deletes the section that the load had created. */
  lemma UnchangedSaveEmpties(file: File, name: string)
    requires NamedInPart(file, name) && RemoteSection(name) !in file && |name| != |CLOUD_REMOTE|
    ensures RemoteSection(name) in AfterReading(file)
    ensures RemoteSection(name) !in SaveParams(AfterReading(file), LoadParams(Some(file)))
  {
    var loaded, p := AfterReading(file), LoadParams(Some(file));
    assert NamedInPart(loaded, name) && RemoteSection(name) in loaded by {
      EmptySectionComes(file, name);
    }
    assert SectionOf(loaded, RemoteSection(name)).keys.Keys <= FIELDS by {
      EmptySectionComes(file, name);
    }
    assert name in p.remotes && p.remotes[name] == NO_ENTRY by {
      EmptySectionComes(file, name);
      EmptyRemoteIsLoaded(file, name);
    }
    EmptySectionGoes(loaded, p, name);
  }

  lemma PartialSectionEmpties()
    ensures var file: File := map[PARTIAL := NO_SECTION];
            && RemoteSection("a") in AfterReading(file)
            && RemoteSection("a") !in SaveParams(AfterReading(file), LoadParams(Some(file)))
  {
    PartialSectionExample();
    UnchangedSaveEmpties(map[PARTIAL := NO_SECTION], "a");
  }

  lemma EmptyRemoteIsLoaded(file: File, name: string)
    requires name in ReadRemotes(file) && |name| != |CLOUD_REMOTE|
    ensures name in LoadParams(Some(file)).remotes
    ensures LoadParams(Some(file)).remotes[name] == ReadRemotes(file)[name]
  {}

  /** A file with a default remote and its section. */
  function FileWithDefault(name: string): File {
    map[DEFAULT_SECTION := Section("", map["default_remote" := Key(name, "")]), RemoteSection(name) := NO_SECTION]
  }

  lemma FileWithDefaultNames(name: string)
    requires '\n' !in name
    ensures ListRemotes(FileWithDefault(name)) == {name} && !NamedInPart(FileWithDefault(name), name)
  {
    ParseInvertsPrint(name);
    DefaultIsNoRemote();
    assert RemoteSection(name) in FileWithDefault(name);
  }

  lemma FileWithDefaultLoads(name: string)
    requires '\n' !in name && name != ""
    ensures Accepted(Some(FileWithDefault(name)))
    ensures LoadParams(Some(FileWithDefault(name))).defaultRemote == name
    ensures LoadParams(Some(FileWithDefault(name))).remotes.Keys == {name, CLOUD_REMOTE}
  {
    FileWithDefaultNames(name);
    NameRoundTrip(name);
    DefaultIsNoRemote();
  }

  /** One such configuration: after the default a is renamed to b, nothing loads any more. */
  lemma RenameLosesDefault()
    ensures Accepted(Some(FileWithDefault("a")))
    ensures Change(LoadParams(Some(FileWithDefault("a"))), Rename("a", "b")).Some?
    ensures !Accepted(Execute(Some(FileWithDefault("a")), Rename("a", "b")))
  {
    FileWithDefaultNames("a");
    FileWithDefaultLoads("a");
    assert |CLOUD_REMOTE| == 3 && "a"[0] != "b"[0];
    ParseInvertsPrint("b");
    RenameKeepsDefaultIff(Some(FileWithDefault("a")), "a", "b");
  }
}
