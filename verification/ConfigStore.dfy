/** config/config.go: what loading and saving do to the sections of the configuration file, as values. */
module ConfigStore {
  import opened Sequences
  import opened Text
  import opened Remotes
  import opened SectionNames

  datatype Key = Key(value: string, comment: string)

  datatype Section = Section(comment: string, keys: map<string, Key>)

  type File = map<string, Section>

  /** The parameters that the model follows. */
  datatype Params = Params(defaultRemote: string, remotes: Entries)

  const DEFAULT_SECTION := "DEFAULT"
  const DEFAULT_INFRASTRUCTURE := "liferay.cloud"
  const NO_SECTION := Section("", map[])
  const NO_KEY := Key("", "")
  const FIELDS: set<string> := {"infrastructure", "service", "username", "token"}

  function SectionOf(file: File, s: string): Section {
    if s in file then file[s] else NO_SECTION
  }

  function KeyOf(section: Section, k: string): Key {
    if k in section.keys then section.keys[k] else NO_KEY
  }

  // ----- Reading -----

  /** What listRemotes returns for the sections in order: a name that several sections give comes several times. */
  function ListedNames(sections: seq<string>): seq<string> {
    if sections == [] then []
    else
      var names := ListedNames(sections[..|sections| - 1]);
      match ParseRemoteSectionName(sections[|sections| - 1])
      case Some(name) => names + [name]
      case None => names
  }

  /** The names that listRemotes finds. */
  function ListRemotes(file: File): set<string> {
    set s | s in file && ParseRemoteSectionName(s).Some? :: ParseRemoteSectionName(s).value
  }

  function ReadEntry(section: Section): Entry {
    Entry(
      TrimSpace(KeyOf(section, "infrastructure").value), TrimSpace(KeyOf(section, "infrastructure").comment),
      TrimSpace(KeyOf(section, "service").value), TrimSpace(KeyOf(section, "service").comment),
      TrimSpace(KeyOf(section, "username").value), TrimSpace(KeyOf(section, "username").comment),
      TrimSpace(KeyOf(section, "token").value), TrimSpace(KeyOf(section, "token").comment),
      TrimSpace(section.comment))
  }

  function ReadFor(file: File, names: set<string>): Entries {
    map name | name in names :: ReadEntry(SectionOf(file, RemoteSection(name)))
  }

  function ReadRemotes(file: File): Entries {
    ReadFor(file, ListRemotes(file))
  }

  /** Looking up the fields creates those that are missing. */
  function TouchFields(section: Section): Section {
    section.(keys := (map k | k in FIELDS :: NO_KEY) + section.keys)
  }

  /** Reading the remotes creates the sections and keys that it looks up. */
  function AfterReading(file: File): File {
    Touched(file, ListRemotes(file))
  }

  function NamedSections(names: set<string>): set<string> {
    set name | name in names :: RemoteSection(name)
  }

  /** The file with f applied to some sections, which are created when missing. */
  function Mapped(file: File, sections: set<string>, f: Section -> Section): File {
    map s | s in file.Keys + sections :: if s in sections then f(SectionOf(file, s)) else SectionOf(file, s)
  }

  function Touched(file: File, names: set<string>): File {
    Mapped(file, NamedSections(names), TouchFields)
  }

  function DefaultRemote(file: File): string {
    var v := KeyOf(SectionOf(file, DEFAULT_SECTION), "default_remote").value;
    if v == "" then CLOUD_REMOTE else v
  }

  const DEFAULT_CLOUD_ENTRY :=
    NO_ENTRY.(infrastructure := DEFAULT_INFRASTRUCTURE, infrastructureComment := "Default cloud remote")

  /** loadDefaultRemotes: a cloud remote without an address is replaced by the standard one. */
  function WithCloudRemote(remotes: Entries): Entries {
    if EntryFor(remotes, CLOUD_REMOTE).infrastructure == ""
    then remotes[CLOUD_REMOTE := DEFAULT_CLOUD_ENTRY]
    else remotes
  }

  /** A missing file (None) counts as an empty one. */
  function LoadParams(stored: Option<File>): Params {
    match stored
    case None => Params(CLOUD_REMOTE, WithCloudRemote(map[]))
    case Some(file) => Params(DefaultRemote(file), WithCloudRemote(ReadRemotes(file)))
  }

  /** validateDefaultRemote. */
  predicate IsValid(p: Params) {
    p.defaultRemote in p.remotes
  }

  predicate Accepted(stored: Option<File>) {
    IsValid(LoadParams(stored))
  }

  /** An empty file has the default section; the comment that the banner puts there is not modelled. */
  function LoadedFile(stored: Option<File>): File {
    match stored
    case None => map[DEFAULT_SECTION := NO_SECTION]
    case Some(file) => AfterReading(file)
  }

  // ----- Writing -----

  /** A section of a remote that is no longer listed. */
  predicate IsRemoved(file: File, remotes: Entries, s: string) {
    IsRemoteSection(s) && NameOf(s) in ListRemotes(file) && NameOf(s) !in remotes
  }

  function WriteKeys(keys: map<string, Key>, e: Entry): map<string, Key> {
    keys["infrastructure" := Key(e.infrastructure, e.infrastructureComment)]
        ["service" := Key(e.service, e.serviceComment)]
        ["username" := Key(e.username, e.usernameComment)]
        ["token" := Key(e.token, e.tokenComment)]
  }

  function WriteEntry(section: Section, e: Entry): Section {
    Section(e.comment, WriteKeys(section.keys, e))
  }

  /** The fields left empty, without a comment. */
  function EmptyFields(section: Section): set<string> {
    set k | k in FIELDS && KeyOf(section, k) == NO_KEY
  }

  function Simplified(section: Section): Section {
    section.(keys := section.keys - EmptyFields(section))
  }

  /** The name is that of a section which only partly matches the pattern. */
  predicate NamedInPart(file: File, name: string) {
    exists s :: s in file && ParseRemoteSectionName(s) == Some(name) && s != RemoteSection(name)
  }

  /** The section printed for the name n parses as the given name. */
  predicate PrintsAs(n: string, name: string) {
    ParseRemoteSectionName(RemoteSection(n)) == Some(name)
  }

  /** While a save simplifies the remotes, another section than its own gives the name. */
  predicate NamedElsewhere(file: File, remotes: Entries, name: string) {
    NamedInPart(file, name) || exists n :: n in remotes && n != name && PrintsAs(n, name)
  }

  predicate IsListed(remotes: Entries, s: string) {
    IsRemoteSection(s) && NameOf(s) in remotes
  }

  /** The section of a listed remote that a save deletes: simplifying leaves nothing of it,
      and comes back to it because another section gives the same name. */
  predicate IsEmptied(file: File, remotes: Entries, s: string) {
    && IsListed(remotes, s) && '\n' !in NameOf(s)
    && remotes[NameOf(s)] == NO_ENTRY && SectionOf(file, s).keys.Keys <= FIELDS
    && NamedElsewhere(file, remotes, NameOf(s))
  }

  /** The section of a listed remote. Only a name that parses is simplified. */
  function SavedSection(file: File, remotes: Entries, s: string): Section
    requires IsListed(remotes, s)
  {
    var written := WriteEntry(SectionOf(file, s), remotes[NameOf(s)]);
    if '\n' in NameOf(s) then written else Simplified(written)
  }

  function SavedNames(file: File, remotes: Entries): set<string> {
    set s | s in file.Keys + NamedSections(remotes.Keys) && !IsRemoved(file, remotes, s) && !IsEmptied(file, remotes, s)
  }

  /** updateRemotes. */
  function UpdateRemotes(file: File, remotes: Entries): File {
    map s | s in SavedNames(file, remotes) ::
      if IsListed(remotes, s) then SavedSection(file, remotes, s) else SectionOf(file, s)
  }

  /** The part of ReflectFrom that the model follows. */
  function ReflectDefault(file: File, defaultRemote: string): File {
    var section := SectionOf(file, DEFAULT_SECTION);
    var key := KeyOf(section, "default_remote").(value := defaultRemote);
    file[DEFAULT_SECTION := section.(keys := section.keys["default_remote" := key])]
  }

  function SaveParams(file: File, p: Params): File {
    UpdateRemotes(ReflectDefault(file, p.defaultRemote), p.remotes)
  }

  // ----- What survives a save -----

  lemma DefaultIsNoRemote()
    ensures !IsRemoteSection(DEFAULT_SECTION) && ParseRemoteSectionName(DEFAULT_SECTION) == None
  {}

  lemma ListOfReflected(file: File, d: string)
    ensures ListRemotes(ReflectDefault(file, d)) == ListRemotes(file)
    ensures forall s :: IsRemoteSection(s) ==> SectionOf(ReflectDefault(file, d), s) == SectionOf(file, s)
    ensures forall name :: NamedInPart(ReflectDefault(file, d), name) <==> NamedInPart(file, name)
  {
    DefaultIsNoRemote();
    var r := ReflectDefault(file, d);
    forall n ensures n in ListRemotes(r) <==> n in ListRemotes(file) {
      if n in ListRemotes(file) {
        var s :| s in file && ParseRemoteSectionName(s) == Some(n);
        assert s in r;
      }
      if n in ListRemotes(r) {
        var s :| s in r && ParseRemoteSectionName(s) == Some(n);
        assert s in file;
      }
    }
    NamedInPartOfReflected(file, d);
  }

  lemma NamedInPartOfReflected(file: File, d: string)
    ensures forall name :: NamedInPart(ReflectDefault(file, d), name) <==> NamedInPart(file, name)
  {
    DefaultIsNoRemote();
    forall name ensures NamedInPart(ReflectDefault(file, d), name) <==> NamedInPart(file, name) {
      if NamedInPart(file, name) {
        var s :| s in file && ParseRemoteSectionName(s) == Some(name) && s != RemoteSection(name);
        assert s in ReflectDefault(file, d);
      }
    }
  }

  /** Sections of a removed remote are gone, and those of listed remotes are there unless they are emptied;
      every other section is still there. */
  lemma SavedSections(file: File, p: Params, s: string)
    ensures s in SaveParams(file, p) <==>
            || s == DEFAULT_SECTION || (IsListed(p.remotes, s) && !IsEmptied(file, p.remotes, s))
            || (s in file && !(IsRemoteSection(s) && NameOf(s) in ListRemotes(file)))
  {
    ListOfReflected(file, p.defaultRemote);
    DefaultIsNoRemote();
    if IsListed(p.remotes, s) {
      SectionRoundTrip(s);
      ParseInvertsPrint(NameOf(s));
    }
    if name :| name in p.remotes && s == RemoteSection(name) {
      NameRoundTrip(name);
    }
    EmptiedInReflected(file, p, s);
  }

  lemma EmptiedInReflected(file: File, p: Params, s: string)
    ensures IsEmptied(ReflectDefault(file, p.defaultRemote), p.remotes, s) <==> IsEmptied(file, p.remotes, s)
  {
    ListOfReflected(file, p.defaultRemote);
  }

  /** A save loses the section of a listed remote if and only if the name has one line, the entry is empty,
      the section has no other key, and the name is given by another section as well. */
  lemma EmptyRemoteIsLost(file: File, p: Params, name: string)
    requires name in p.remotes
    ensures RemoteSection(name) !in SaveParams(file, p) <==>
            && '\n' !in name && p.remotes[name] == NO_ENTRY
            && SectionOf(file, RemoteSection(name)).keys.Keys <= FIELDS
            && (NamedInPart(file, name) || exists n :: n in p.remotes && n != name && PrintsAs(n, name))
  {
    NameRoundTrip(name);
    DefaultIsNoRemote();
    SavedSections(file, p, RemoteSection(name));
    ParseInvertsPrint(name);
  }

  /** Sections that are not of a listed remote keep their contents, but for the default remote. */
  lemma ForeignSectionsSurvive(file: File, p: Params, s: string)
    requires s in file && s != DEFAULT_SECTION && !(IsRemoteSection(s) && NameOf(s) in p.remotes)
    requires !(IsRemoteSection(s) && NameOf(s) in ListRemotes(file))
    ensures s in SaveParams(file, p) && SaveParams(file, p)[s] == file[s]
  {
    SavedSections(file, p, s);
  }

  /** Exactly the keys of the section of a listed remote that are not fields survive, as they were. */
  lemma ForeignKeysSurvive(file: File, p: Params, name: string, k: string)
    requires name in p.remotes && k !in FIELDS
    ensures var s := RemoteSection(name);
            var (was, kept) := (SectionOf(file, s), SectionOf(SaveParams(file, p), s));
            (k in kept.keys <==> k in was.keys) && KeyOf(kept, k) == KeyOf(was, k)
  {
    NameRoundTrip(name);
    EmptyRemoteIsLost(file, p, name);
    ListOfReflected(file, p.defaultRemote);
  }

  // ----- The round trip -----

  function Trimmed(e: Entry): Entry {
    Entry(TrimSpace(e.infrastructure), TrimSpace(e.infrastructureComment),
          TrimSpace(e.service), TrimSpace(e.serviceComment),
          TrimSpace(e.username), TrimSpace(e.usernameComment),
          TrimSpace(e.token), TrimSpace(e.tokenComment), TrimSpace(e.comment))
  }

  predicate IsTrimmed(e: Entry) {
    Trimmed(e) == e
  }

  lemma WrittenKeys(section: Section, e: Entry)
    ensures KeyOf(WriteEntry(section, e), "infrastructure") == Key(e.infrastructure, e.infrastructureComment)
    ensures KeyOf(WriteEntry(section, e), "service") == Key(e.service, e.serviceComment)
    ensures KeyOf(WriteEntry(section, e), "username") == Key(e.username, e.usernameComment)
    ensures KeyOf(WriteEntry(section, e), "token") == Key(e.token, e.tokenComment)
  {}

  lemma SimplifiedReadsTheSame(section: Section, k: string)
    ensures KeyOf(Simplified(section), k) == KeyOf(section, k)
  {}

  lemma SavedEntryReads(file: File, remotes: Entries, s: string)
    requires IsListed(remotes, s)
    ensures ReadEntry(SavedSection(file, remotes, s)) == Trimmed(remotes[NameOf(s)])
  {
    var w := WriteEntry(SectionOf(file, s), remotes[NameOf(s)]);
    WrittenKeys(SectionOf(file, s), remotes[NameOf(s)]);
    SimplifiedReadsTheSame(w, "infrastructure");
    SimplifiedReadsTheSame(w, "service");
    SimplifiedReadsTheSame(w, "username");
    SimplifiedReadsTheSame(w, "token");
  }

  /** The names listed after a save: those that the remotes print,
      and those of sections that only partly match, which are never removed. */
  lemma ListAfterSave(file: File, p: Params, name: string)
    ensures name in ListRemotes(SaveParams(file, p)) <==>
            NamedInPart(file, name) || exists n :: n in p.remotes && PrintsAs(n, name)
  {
    var saved := SaveParams(file, p);
    if NamedInPart(file, name) {
      var s :| s in file && ParseRemoteSectionName(s) == Some(name) && s != RemoteSection(name);
      PartialSectionsStay(file, p, s, name);
    } else if n :| n in p.remotes && PrintsAs(n, name) {
      PrintedStaysListed(file, p, n, name);
    }
    if name in ListRemotes(saved) {
      var s :| s in saved && ParseRemoteSectionName(s) == Some(name);
      SavedSections(file, p, s);
      DefaultIsNoRemote();
      if IsListed(p.remotes, s) {
        SectionRoundTrip(s);
        assert PrintsAs(NameOf(s), name);
      } else if s == RemoteSection(name) {
        NameRoundTrip(name);
        assert name in ListRemotes(file);
      }
    }
  }

  /** A section that is emptied is not the only one to give its name. */
  lemma PrintedStaysListed(file: File, p: Params, n: string, name: string)
    requires !NamedInPart(file, name) && n in p.remotes && PrintsAs(n, name)
    ensures name in ListRemotes(SaveParams(file, p))
  {
    EmptyRemoteIsLost(file, p, n);
    if RemoteSection(n) !in SaveParams(file, p) {
      ParseInvertsPrint(n);
      var other :| other in p.remotes && other != n && PrintsAs(other, n);
      ParseInvertsPrint(other);
      EmptyRemoteIsLost(file, p, other);
    }
  }

  lemma PartialSectionsStay(file: File, p: Params, s: string, name: string)
    requires s in file && ParseRemoteSectionName(s) == Some(name) && s != RemoteSection(name)
    ensures s in SaveParams(file, p)
  {
    SavedSections(file, p, s);
    if IsRemoteSection(s) {
      SectionRoundTrip(s);
      ParseInvertsPrint(NameOf(s));
      if NameOf(s) in ListRemotes(file) {
        ParsedNamesHaveOneLine(file, NameOf(s));
      }
    }
  }

  lemma ParsedNamesHaveOneLine(file: File, name: string)
    requires name in ListRemotes(file)
    ensures '\n' !in name
  {
    var s :| s in file && ParseRemoteSectionName(s) == Some(name);
    ParsedHasOneLine(s, 0);
  }

  /** What the section of a listed remote has in a saved file: each field under its own key, with its comment.
      A field that is empty and has no comment may be left out. */
  lemma SavedFields(file: File, p: Params, name: string)
    requires name in p.remotes
    ensures var (section, e) := (SectionOf(SaveParams(file, p), RemoteSection(name)), p.remotes[name]);
            && section.comment == e.comment
            && KeyOf(section, "infrastructure") == Key(e.infrastructure, e.infrastructureComment)
            && KeyOf(section, "service") == Key(e.service, e.serviceComment)
            && KeyOf(section, "username") == Key(e.username, e.usernameComment)
            && KeyOf(section, "token") == Key(e.token, e.tokenComment)
    ensures KeyOf(SectionOf(SaveParams(file, p), "DEFAULT"), "default_remote").value == p.defaultRemote
  {
    NameRoundTrip(name);
    DefaultIsNoRemote();
    SavedSections(file, p, DEFAULT_SECTION);
    if RemoteSection(name) in SaveParams(file, p) {
      SavedKeys(ReflectDefault(file, p.defaultRemote), p.remotes, RemoteSection(name));
    } else {
      EmptyRemoteIsLost(file, p, name);
    }
  }

  lemma SavedKeys(file: File, remotes: Entries, s: string)
    requires IsListed(remotes, s)
    ensures var (section, e) := (SavedSection(file, remotes, s), remotes[NameOf(s)]);
            && section.comment == e.comment
            && KeyOf(section, "infrastructure") == Key(e.infrastructure, e.infrastructureComment)
            && KeyOf(section, "service") == Key(e.service, e.serviceComment)
            && KeyOf(section, "username") == Key(e.username, e.usernameComment)
            && KeyOf(section, "token") == Key(e.token, e.tokenComment)
  {
    var w := WriteEntry(SectionOf(file, s), remotes[NameOf(s)]);
    WrittenKeys(SectionOf(file, s), remotes[NameOf(s)]);
    SimplifiedReadsTheSame(w, "infrastructure");
    SimplifiedReadsTheSame(w, "service");
    SimplifiedReadsTheSame(w, "username");
    SimplifiedReadsTheSame(w, "token");
  }

  /** What is read of a section, each field from its own key. */
  lemma ReadFields(section: Section)
    ensures var e := ReadEntry(section);
            && e.comment == TrimSpace(section.comment)
            && e.infrastructure == TrimSpace(KeyOf(section, "infrastructure").value)
            && e.infrastructureComment == TrimSpace(KeyOf(section, "infrastructure").comment)
            && e.service == TrimSpace(KeyOf(section, "service").value)
            && e.serviceComment == TrimSpace(KeyOf(section, "service").comment)
            && e.username == TrimSpace(KeyOf(section, "username").value)
            && e.usernameComment == TrimSpace(KeyOf(section, "username").comment)
            && e.token == TrimSpace(KeyOf(section, "token").value)
            && e.tokenComment == TrimSpace(KeyOf(section, "token").comment)
  {}

  /** What a file says of a remote is loaded, each field from its own key of the section, without white space around;
      only a cloud remote without an address is replaced. */
  lemma LoadsSection(file: File, name: string)
    requires RemoteSection(name) in file && '\n' !in name
    requires name == "lcp" ==> TrimSpace(KeyOf(file[RemoteSection(name)], "infrastructure").value) != ""
    ensures var remotes := LoadParams(Some(file)).remotes;
            name in remotes && remotes[name] == ReadEntry(file[RemoteSection(name)])
  {
    ParseInvertsPrint(name);
    assert name in ListRemotes(file);
  }

  /** Without a file, the default is the standard cloud remote; otherwise it is what the main section says. */
  lemma LoadsDefault(file: File)
    ensures LoadParams(None) ==
            Params("lcp", map["lcp" := Entry("liferay.cloud", "Default cloud remote", "", "", "", "", "", "", "")])
    ensures LoadParams(Some(file)).defaultRemote ==
            if "DEFAULT" in file && "default_remote" in file["DEFAULT"].keys &&
               file["DEFAULT"].keys["default_remote"].value != ""
            then file["DEFAULT"].keys["default_remote"].value
            else "lcp"
  {}

  lemma TrimmedTwice(e: Entry)
    ensures IsTrimmed(Trimmed(e))
  {
    TrimTwice(e.infrastructure);
    TrimTwice(e.infrastructureComment);
    TrimTwice(e.service);
    TrimTwice(e.serviceComment);
    TrimTwice(e.username);
    TrimTwice(e.usernameComment);
    TrimTwice(e.token);
    TrimTwice(e.tokenComment);
    TrimTwice(e.comment);
  }

  /** What is read after a save of remotes whose names have one line: those remotes, trimmed,
      and an empty entry for every other name that a partly matching section gives. */
  lemma ReadAfterSave(file: File, p: Params, name: string)
    requires forall n :: n in p.remotes ==> '\n' !in n
    ensures var back := ReadRemotes(SaveParams(file, p));
            && (name in back <==> name in p.remotes || NamedInPart(file, name))
            && (name in p.remotes ==> back[name] == Trimmed(p.remotes[name]))
            && (name in back && name !in p.remotes ==> back[name] == NO_ENTRY)
  {
    ListAfterSave(file, p, name);
    if n :| n in p.remotes && PrintsAs(n, name) {
      ParseInvertsPrint(n);
    }
    if name in p.remotes {
      RemoteReadsBack(file, p, name);
    } else if name in ListRemotes(SaveParams(file, p)) {
      UnlistedReadsEmpty(file, p, name);
    }
  }

  /** The section of a name that is not listed is gone. */
  lemma UnlistedReadsEmpty(file: File, p: Params, name: string)
    requires name !in p.remotes && NamedInPart(file, name)
    ensures RemoteSection(name) !in SaveParams(file, p)
    ensures ReadEntry(SectionOf(SaveParams(file, p), RemoteSection(name))) == NO_ENTRY
  {
    PartIsListed(file, name);
    UnlistedIsGone(file, p, name);
    NoSectionReads();
  }

  lemma UnlistedIsGone(file: File, p: Params, name: string)
    requires name !in p.remotes && name in ListRemotes(file)
    ensures RemoteSection(name) !in SaveParams(file, p)
  {
    NameRoundTrip(name);
    DefaultIsNoRemote();
    SavedSections(file, p, RemoteSection(name));
  }

  lemma PartIsListed(file: File, name: string)
    requires NamedInPart(file, name)
    ensures name in ListRemotes(file)
  {}

  lemma NoSectionReads()
    ensures ReadEntry(NO_SECTION) == NO_ENTRY
  {}

  /** A saved remote reads back trimmed, when its name can be read at all. */
  lemma RemoteReadsBack(file: File, p: Params, name: string)
    requires name in p.remotes && '\n' !in name
    ensures var back := ReadRemotes(SaveParams(file, p)); name in back && back[name] == Trimmed(p.remotes[name])
  {
    ParseInvertsPrint(name);
    assert PrintsAs(name, name);
    ListAfterSave(file, p, name);
    SavedSectionReads(file, p, name);
  }

  /** An emptied section reads as the empty entry that it held. */
  lemma SavedSectionReads(file: File, p: Params, name: string)
    requires name in p.remotes
    ensures ReadEntry(SectionOf(SaveParams(file, p), RemoteSection(name))) == Trimmed(p.remotes[name])
  {
    NameRoundTrip(name);
    if RemoteSection(name) in SaveParams(file, p) {
      SavedEntryReads(ReflectDefault(file, p.defaultRemote), p.remotes, RemoteSection(name));
    } else {
      EmptyRemoteIsLost(file, p, name);
      EmptyReads();
    }
  }

  lemma EmptyReads()
    ensures ReadEntry(NO_SECTION) == Trimmed(NO_ENTRY)
  {}

  /** What a save must be given to be undone by a read; all of it can be seen before the save. */
  ghost predicate Readable(file: File, remotes: Entries) {
    && (forall name :: name in remotes ==> '\n' !in name && IsTrimmed(remotes[name]))
    && (forall name :: NamedInPart(file, name) ==> name in remotes)
  }

  lemma ReadableListsNoOther(file: File, p: Params, name: string)
    requires Readable(file, p.remotes) && name in ListRemotes(SaveParams(file, p))
    ensures name in p.remotes
  {
    ListAfterSave(file, p, name);
    if n :| n in p.remotes && PrintsAs(n, name) {
      ParseInvertsPrint(n);
    }
  }

  lemma ReadableRoundTrips(file: File, p: Params)
    requires Readable(file, p.remotes)
    ensures ReadRemotes(SaveParams(file, p)) == p.remotes
  {
    var back := ReadRemotes(SaveParams(file, p));
    forall name | name in p.remotes ensures name in back && back[name] == p.remotes[name] {
      RemoteReadsBack(file, p, name);
    }
    forall name | name in back ensures name in p.remotes {
      ReadableListsNoOther(file, p, name);
    }
    SameEntries(back, p.remotes);
  }

  lemma SameEntries(a: Entries, b: Entries)
    requires forall name :: name in b ==> name in a && a[name] == b[name]
    requires forall name :: name in a ==> name in b
    ensures a == b
  {}

  lemma RoundTripIsReadable(file: File, p: Params)
    requires ReadRemotes(SaveParams(file, p)) == p.remotes
    ensures Readable(file, p.remotes)
  {
    var back := ReadRemotes(SaveParams(file, p));
    forall name | name in p.remotes ensures '\n' !in name && IsTrimmed(p.remotes[name]) {
      assert name in back;
      ParsedNamesHaveOneLine(SaveParams(file, p), name);
      RemoteReadsBack(file, p, name);
    }
    forall name | NamedInPart(file, name) ensures name in p.remotes {
      ListAfterSave(file, p, name);
      assert name in ListRemotes(SaveParams(file, p)) ==> name in back;
    }
  }

  /** Saving and reading returns exactly the same remotes if and only if no name has a line break, the fields
      are trimmed, and no section that only partly matches the name pattern names a remote that is not listed. */
  lemma ConfigRoundTrip(file: File, p: Params)
    ensures ReadRemotes(SaveParams(file, p)) == p.remotes <==> Readable(file, p.remotes)
  {
    if Readable(file, p.remotes) {
      ReadableRoundTrips(file, p);
    }
    if ReadRemotes(SaveParams(file, p)) == p.remotes {
      RoundTripIsReadable(file, p);
    }
  }

  /** The default remote is read back as it was saved; an empty one reads as the cloud remote. */
  lemma DefaultRoundTrip(file: File, p: Params)
    ensures DefaultRemote(SaveParams(file, p)) == if p.defaultRemote == "" then CLOUD_REMOTE else p.defaultRemote
  {
    DefaultIsNoRemote();
    SavedSections(file, p, DEFAULT_SECTION);
  }

  ghost predicate HasCloudAddress(remotes: Entries) {
    EntryFor(remotes, CLOUD_REMOTE).infrastructure != ""
  }

  /** Saving and loading restores all parameters if and only if, besides, there is a default remote
      and the cloud remote has an address. */
  lemma LoadInvertsSave(file: File, p: Params)
    ensures LoadParams(Some(SaveParams(file, p))) == p <==>
            Readable(file, p.remotes) && p.defaultRemote != "" && HasCloudAddress(p.remotes)
  {
    var saved := SaveParams(file, p);
    DefaultRoundTrip(file, p);
    ConfigRoundTrip(file, p);
    if LoadParams(Some(saved)) == p && ReadRemotes(saved) != p.remotes {
      LoadCannotRepair(file, p);
    }
  }

  /** What reading got wrong, putting the standard cloud remote in does not make good. */
  lemma LoadCannotRepair(file: File, p: Params)
    requires WithCloudRemote(ReadRemotes(SaveParams(file, p))) == p.remotes
    ensures ReadRemotes(SaveParams(file, p)) == p.remotes
  {
    var back := ReadRemotes(SaveParams(file, p));
    if EntryFor(back, CLOUD_REMOTE).infrastructure == "" {
      assert p.remotes[CLOUD_REMOTE] == DEFAULT_CLOUD_ENTRY;
      RemoteReadsBack(file, p, CLOUD_REMOTE);
      AddressHasNoSpace();
    }
  }

  lemma AddressHasNoSpace()
    ensures TrimSpace(DEFAULT_INFRASTRUCTURE) == DEFAULT_INFRASTRUCTURE
    ensures '\n' !in CLOUD_REMOTE
  {}
}
