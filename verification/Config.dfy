/** config/config.go, command/remote/remote.go, command/remote/default.go: the configuration object,
    whose file and parameters are rewritten in place. */
module Config {
  import opened Sequences
  import opened Text
  import opened Remotes
  import opened SectionNames
  import opened ConfigStore
  import opened RemoteCommands

  // ----- What is done when part of the remotes was handled -----

  function Written(file: File, remotes: Entries, done: set<string>): File {
    map s | s in file.Keys + NamedSections(done) ::
      if IsRemoteSection(s) && NameOf(s) in done then WriteEntry(SectionOf(file, s), EntryFor(remotes, NameOf(s)))
      else SectionOf(file, s)
  }

  lemma SameFiles(a: File, b: File)
    requires forall s :: s in b ==> s in a && a[s] == b[s]
    requires forall s :: s in a ==> s in b
    ensures a == b
  {}

  lemma TouchTwice(section: Section)
    ensures TouchFields(TouchFields(section)) == TouchFields(section)
  {
    var m: map<string, Key> := map k | k in FIELDS :: NO_KEY;
    assert m + (m + section.keys) == m + section.keys;
  }

  lemma MapOneMore(file: File, sections: set<string>, s: string, f: Section -> Section)
    ensures Mapped(file, sections + {s}, f) == Mapped(file, sections, f)[s := f(SectionOf(file, s))]
  {
    SameFiles(Mapped(file, sections + {s}, f), Mapped(file, sections, f)[s := f(SectionOf(file, s))]);
  }

  lemma MapNothing(file: File, f: Section -> Section)
    ensures Mapped(file, {}, f) == file
  {
    SameFiles(Mapped(file, {}, f), file);
  }

  lemma TouchAgain(file: File, done: set<string>, s: string)
    ensures TouchFields(SectionOf(Touched(file, done), s)) == TouchFields(SectionOf(file, s))
  {
    TouchTwice(SectionOf(file, s));
  }

  lemma NamedOneMore(names: set<string>, name: string)
    ensures NamedSections(names + {name}) == NamedSections(names) + {RemoteSection(name)}
  {}

  lemma TouchOneMore(file: File, done: set<string>, name: string)
    ensures Touched(file, done + {name}) ==
            Touched(file, done)[RemoteSection(name) := TouchFields(SectionOf(file, RemoteSection(name)))]
  {
    NamedOneMore(done, name);
    MapOneMore(file, NamedSections(done), RemoteSection(name), TouchFields);
  }

  /** What one turn of the loop of readRemotes does to what was read before. */
  lemma ReadOneMore(file: File, done: set<string>, name: string)
    ensures var section := TouchFields(SectionOf(Touched(file, done), RemoteSection(name)));
            && Touched(file, done + {name}) == Touched(file, done)[RemoteSection(name) := section]
            && ReadFor(file, done + {name}) == ReadFor(file, done)[name := ReadEntry(section)]
  {
    var s := RemoteSection(name);
    TouchOneMore(file, done, name);
    TouchAgain(file, done, s);
    TouchedReads(SectionOf(file, s));
    ReadForOneMore(file, done, name);
  }

  lemma TouchedReads(section: Section)
    ensures ReadEntry(TouchFields(section)) == ReadEntry(section)
  {
    assert forall k :: KeyOf(TouchFields(section), k) == KeyOf(section, k);
  }

  lemma ReadForOneMore(file: File, done: set<string>, name: string)
    ensures ReadFor(file, done + {name}) == ReadFor(file, done)[name := ReadEntry(SectionOf(file, RemoteSection(name)))]
  {}

  /** A name other than s gives another section. */
  lemma OtherSection(t: string, name: string)
    requires IsRemoteSection(t) && t != RemoteSection(name)
    ensures NameOf(t) != name
  {
    SectionRoundTrip(t);
  }

  lemma NotYetNamed(done: set<string>, name: string)
    requires name !in done
    ensures RemoteSection(name) !in NamedSections(done)
  {
    NameRoundTrip(name);
    forall n | n in done ensures RemoteSection(n) != RemoteSection(name) {
      NameRoundTrip(n);
    }
  }

  lemma WriteOneMore(file: File, remotes: Entries, done: set<string>, name: string)
    requires name in remotes && name !in done
    ensures Written(file, remotes, done + {name}) ==
            var (s, w) := (RemoteSection(name), Written(file, remotes, done));
            w[s := WriteEntry(SectionOf(w, s), remotes[name])]
  {
    var s := RemoteSection(name);
    var a, b := Written(file, remotes, done + {name}), Written(file, remotes, done);
    NameRoundTrip(name);
    NotYetNamed(done, name);
    NamedOneMore(done, name);
    assert SectionOf(b, s) == SectionOf(file, s);
    var e := b[s := WriteEntry(SectionOf(b, s), remotes[name])];
    forall t | t in e ensures t in a && a[t] == e[t] {
      if t != s && IsRemoteSection(t) {
        OtherSection(t, name);
      }
    }
    SameFiles(a, e);
  }

  function Elements(keys: seq<string>): set<string> {
    set k | k in keys
  }

  lemma WriteNothing(file: File, remotes: Entries)
    ensures Written(file, remotes, Elements([])) == file
  {
    SameFiles(Written(file, remotes, {}), file);
  }

  lemma WriteNext(file: File, remotes: Entries, keys: seq<string>, i: nat)
    requires IsSortedListOf(keys, remotes.Keys) && i < |keys|
    ensures var w := Written(file, remotes, Elements(keys[..i]));
            Written(file, remotes, Elements(keys[..i + 1])) ==
            w[RemoteSection(keys[i]) := WriteEntry(SectionOf(w, RemoteSection(keys[i])), EntryFor(remotes, keys[i]))]
  {
    SortedHasNoRepeat(keys, remotes.Keys, i);
    WriteOneMore(file, remotes, Elements(keys[..i]), keys[i]);
    ElementsOneMore(keys, i);
  }

  lemma ElementsOneMore(keys: seq<string>, i: nat)
    requires i < |keys|
    ensures Elements(keys[..i + 1]) == Elements(keys[..i]) + {keys[i]}
  {
    assert keys[..i + 1] == keys[..i] + [keys[i]];
  }

  lemma WriteLast(file: File, remotes: Entries, keys: seq<string>)
    requires IsSortedListOf(keys, remotes.Keys)
    ensures Written(file, remotes, Elements(keys[..|keys|])) == Written(file, remotes, remotes.Keys)
  {
    assert keys[..|keys|] == keys;
    assert Elements(keys) == remotes.Keys;
  }

  lemma SortedHasNoRepeat(keys: seq<string>, names: set<string>, i: nat)
    requires IsSortedListOf(keys, names) && i < |keys|
    ensures keys[i] in names && keys[i] !in keys[..i]
  {
    LessTrichotomy(keys[i], keys[i]);
    assert keys[i] in keys;
    forall j | 0 <= j < i ensures keys[j] != keys[i] {
      assert Less(keys[j], keys[i]);
    }
  }

  lemma ReadNothing(file: File)
    ensures Touched(file, {}) == file && ReadFor(file, {}) == map[]
  {
    MapNothing(file, TouchFields);
    assert NamedSections({}) == {};
  }

  /** Looks the key up, which creates it when missing, and deletes it when it is empty. */
  function DropIfEmpty(section: Section, k: string): Section {
    if KeyOf(section, k) == NO_KEY then section.(keys := section.keys - {k}) else section
  }

  lemma DroppingSimplifies(section: Section)
    ensures var d := DropIfEmpty(DropIfEmpty(section, "infrastructure"), "service");
            DropIfEmpty(DropIfEmpty(d, "username"), "token") == Simplified(section)
  {
    var half := DropIfEmpty(DropIfEmpty(section, "infrastructure"), "service");
    var d := DropIfEmpty(DropIfEmpty(half, "username"), "token");
    assert d.keys == section.keys - EmptyFields(section);
  }

  /** Nothing is left of the section but, perhaps, an empty infrastructure and an empty service. */
  predicate IsBare(section: Section) {
    DropIfEmpty(DropIfEmpty(section, "infrastructure"), "service") == NO_SECTION
  }

  // ----- The visits of simplifyRemotes -----

  function Lookup(file: File, s: string): Option<Section> {
    if s in file then Some(file[s]) else None
  }

  function Put(file: File, s: string, o: Option<Section>): File {
    match o
    case Some(section) => file[s := section]
    case None => file - {s}
  }

  /** One visit creates a missing section, and deletes one of which nothing is left. */
  function Visit(o: Option<Section>): Option<Section> {
    var section := if o.Some? then o.value else NO_SECTION;
    if IsBare(section) then None else Some(Simplified(section))
  }

  function VisitTimes(o: Option<Section>, n: nat): Option<Section> {
    if n == 0 then o else Visit(VisitTimes(o, n - 1))
  }

  /** The file after a visit for each name in turn. */
  function VisitAll(file: File, names: seq<string>): File {
    if names == [] then file
    else
      var (before, s) := (VisitAll(file, names[..|names| - 1]), RemoteSection(names[|names| - 1]));
      Put(before, s, Visit(Lookup(before, s)))
  }

  /** How often the name occurs. */
  function Times(names: seq<string>, name: string): nat {
    if names == [] then 0 else Times(names[..|names| - 1], name) + if names[|names| - 1] == name then 1 else 0
  }

  lemma {:induction false} TimesIsMembership(names: seq<string>, name: string)
    ensures Times(names, name) > 0 <==> name in names
  {
    if names == [] {
    } else {
      var front := names[..|names| - 1];
      TimesIsMembership(front, name);
      assert names == front + [names[|names| - 1]];
    }
  }

  lemma TimesOneMore(names: seq<string>, last: string, name: string)
    ensures Times(names + [last], name) == Times(names, name) + if last == name then 1 else 0
  {
    assert (names + [last])[..|names|] == names;
  }

  /** A section is visited as often as its name occurs, and no other section is. */
  lemma {:induction false} VisitAllAt(file: File, names: seq<string>, s: string)
    ensures Lookup(VisitAll(file, names), s) ==
            if IsRemoteSection(s) then VisitTimes(Lookup(file, s), Times(names, NameOf(s))) else Lookup(file, s)
  {
    if names == [] {
    } else {
      VisitAllAt(file, names[..|names| - 1], s);
      VisitOneMore(VisitAll(file, names[..|names| - 1]), names[|names| - 1], s);
    }
  }

  lemma VisitOneMore(file: File, name: string, s: string)
    ensures var r := RemoteSection(name);
            Lookup(Put(file, r, Visit(Lookup(file, r))), s) ==
            if IsRemoteSection(s) && NameOf(s) == name then Visit(Lookup(file, s)) else Lookup(file, s)
  {
    NameRoundTrip(name);
    if IsRemoteSection(s) {
      SectionRoundTrip(s);
    }
  }

  lemma SimplifyTwice(section: Section)
    ensures IsBare(Simplified(section)) <==> Simplified(section) == NO_SECTION
    ensures Simplified(Simplified(section)) == Simplified(section)
  {
    var once := Simplified(section);
    assert EmptyFields(once) * once.keys.Keys == {};
    assert once.keys - EmptyFields(once) == once.keys;
    assert once.keys - {"infrastructure"} == once.keys || "infrastructure" in once.keys;
    assert once.keys - {"service"} == once.keys || "service" in once.keys;
  }

  /** What the second visit leaves is what all later ones leave. */
  lemma {:induction false} VisitsSettle(section: Section, n: nat)
    requires n > 0
    ensures VisitTimes(Some(section), n) ==
            if IsBare(section) || (n >= 2 && Simplified(section) == NO_SECTION) then None else Some(Simplified(section))
  {
    SimplifyTwice(section);
    if n > 1 {
      VisitsSettle(section, n - 1);
      assert IsBare(NO_SECTION);
    } else {
      assert VisitTimes(Some(section), 0) == Some(section);
    }
  }

  lemma {:induction false} NothingSettles(n: nat)
    ensures VisitTimes(None, n) == None
  {
    assert IsBare(NO_SECTION);
    if n == 0 {
    } else {
      NothingSettles(n - 1);
    }
  }

  /** The names are walked in the order of the sections in the file, which the map of the sections does not have. */
  ghost predicate IsOrderOf(sections: seq<string>, file: File) {
    NoDuplicates(sections) && forall s :: s in sections <==> s in file
  }

  ghost predicate Gives(sections: seq<string>, i: int, name: string) {
    0 <= i < |sections| && ParseRemoteSectionName(sections[i]) == Some(name)
  }

  ghost predicate GivenOnce(sections: seq<string>, name: string) {
    exists i :: Gives(sections, i, name)
  }

  ghost predicate GivenTwice(sections: seq<string>, name: string) {
    exists i, j :: i < j && Gives(sections, i, name) && Gives(sections, j, name)
  }

  /** A name is listed as often as sections give it. */
  lemma {:induction false} NamesAreCounted(sections: seq<string>, name: string)
    ensures Times(ListedNames(sections), name) >= 1 <==> GivenOnce(sections, name)
    ensures Times(ListedNames(sections), name) >= 2 <==> GivenTwice(sections, name)
  {
    if sections == [] {
    } else {
      NamesAreCounted(sections[..|sections| - 1], name);
      CountOneMore(sections, name);
      GivesOneMore(sections, name);
    }
  }

  lemma CountOneMore(sections: seq<string>, name: string)
    requires sections != []
    ensures var (all, names) := (ListedNames(sections), ListedNames(sections[..|sections| - 1]));
            && Times(all, name) == Times(names, name) + (if Gives(sections, |sections| - 1, name) then 1 else 0)
  {
    var names := ListedNames(sections[..|sections| - 1]);
    match ParseRemoteSectionName(sections[|sections| - 1])
    case Some(last) => TimesOneMore(names, last, name);
    case None =>
  }

  lemma GivesOneMore(sections: seq<string>, name: string)
    requires sections != []
    ensures var (front, last) := (sections[..|sections| - 1], Gives(sections, |sections| - 1, name));
            && (GivenOnce(sections, name) <==> GivenOnce(front, name) || last)
            && (GivenTwice(sections, name) <==> GivenTwice(front, name) || (GivenOnce(front, name) && last))
  {
    var front := sections[..|sections| - 1];
    assert forall i :: Gives(front, i, name) <==> Gives(sections, i, name) && i != |front|;
    if i :| Gives(front, i, name) {
      assert i < |front| && Gives(sections, i, name);
    }
  }

  lemma ListedNamesAre(sections: seq<string>, file: File)
    requires IsOrderOf(sections, file)
    ensures Elements(ListedNames(sections)) == ListRemotes(file)
  {
    forall name ensures name in ListedNames(sections) <==> name in ListRemotes(file) {
      NamesAreCounted(sections, name);
      TimesIsMembership(ListedNames(sections), name);
      if i :| Gives(sections, i, name) {
        assert sections[i] in file;
      }
      if s :| s in file && ParseRemoteSectionName(s) == Some(name) {
        assert s in sections;
        var i :| 0 <= i < |sections| && sections[i] == s;
        assert Gives(sections, i, name);
      }
    }
  }

  /** The name of a section that is visited comes again exactly when another section gives it. */
  lemma ListedAgain(sections: seq<string>, file: File, s: string)
    requires IsOrderOf(sections, file) && s in file && ParseRemoteSectionName(s).Some?
    ensures var name := ParseRemoteSectionName(s).value;
            Times(ListedNames(sections), name) >= 2 <==>
            exists t :: t in file && ParseRemoteSectionName(t) == Some(name) && t != s
  {
    var name := ParseRemoteSectionName(s).value;
    NamesAreCounted(sections, name);
    assert s in sections;
    var i :| 0 <= i < |sections| && sections[i] == s;
    assert Gives(sections, i, name);
    if t :| t in file && ParseRemoteSectionName(t) == Some(name) && t != s {
      assert t in sections;
      var j :| 0 <= j < |sections| && sections[j] == t;
      assert Gives(sections, j, name);
      assert i < j || j < i;
    }
    if a, b :| a < b && Gives(sections, a, name) && Gives(sections, b, name) {
      var j := if a == i then b else a;
      assert sections[j] in file && sections[j] != s;
    }
  }

  predicate IsVisited(file: File, s: string) {
    IsRemoteSection(s) && NameOf(s) in ListRemotes(file)
  }

  /** The visits leave nothing of the section and delete it: the first one, or a second one. */
  predicate Vanishes(file: File, s: string)
    requires s in file
  {
    && IsVisited(file, s)
    && (IsBare(file[s]) || (Simplified(file[s]) == NO_SECTION && NamedInPart(file, NameOf(s))))
  }

  function SimplifiedFile(file: File): File {
    map s | s in file && !Vanishes(file, s) :: if IsVisited(file, s) then Simplified(file[s]) else file[s]
  }

  lemma VisitedAt(file: File, sections: seq<string>, s: string)
    requires IsOrderOf(sections, file)
    ensures Lookup(VisitAll(file, ListedNames(sections)), s) == Lookup(SimplifiedFile(file), s)
  {
    var names := ListedNames(sections);
    VisitAllAt(file, names, s);
    ListedNamesAre(sections, file);
    if IsRemoteSection(s) {
      TimesIsMembership(names, NameOf(s));
      assert NameOf(s) in names <==> NameOf(s) in Elements(names);
      if s !in file {
        NothingSettles(Times(names, NameOf(s)));
      } else if IsVisited(file, s) {
        ParsedNamesHaveOneLine(file, NameOf(s));
        ParseInvertsPrint(NameOf(s));
        SectionRoundTrip(s);
        ListedAgain(sections, file, s);
        VisitsSettle(file[s], Times(names, NameOf(s)));
      }
    }
  }

  /** The visits end in the same file whatever the order of the sections. */
  lemma VisitsSimplify(file: File, sections: seq<string>)
    requires IsOrderOf(sections, file)
    ensures VisitAll(file, ListedNames(sections)) == SimplifiedFile(file)
  {
    var a, b := VisitAll(file, ListedNames(sections)), SimplifiedFile(file);
    forall s ensures Lookup(a, s) == Lookup(b, s) {
      VisitedAt(file, sections, s);
    }
    forall s | s in a ensures s in b && a[s] == b[s] {
      assert Lookup(a, s) == Lookup(b, s);
    }
    forall s | s in b ensures s in a {
      assert Lookup(a, s) == Lookup(b, s);
    }
    SameFiles(a, b);
  }

  lemma NothingIsWritten(section: Section, e: Entry)
    ensures Simplified(WriteEntry(section, e)) == NO_SECTION <==> e == NO_ENTRY && section.keys.Keys <= FIELDS
  {
    var w := WriteEntry(section, e);
    WrittenKeys(section, e);
    if Simplified(w) == NO_SECTION {
      assert w.keys.Keys <= EmptyFields(w) by {
        forall k | k in w.keys ensures k in EmptyFields(w) {
          assert k !in Simplified(w).keys;
        }
      }
      assert forall k :: k in section.keys ==> k in w.keys;
      assert "infrastructure" in w.keys && "service" in w.keys && "username" in w.keys && "token" in w.keys;
    }
    if e == NO_ENTRY && section.keys.Keys <= FIELDS {
      assert w.keys - EmptyFields(w) == map[];
    }
  }

  lemma WrittenIsNotBare(section: Section, e: Entry)
    ensures !IsBare(WriteEntry(section, e))
  {
    var w := WriteEntry(section, e);
    var d := DropIfEmpty(DropIfEmpty(w, "infrastructure"), "service");
    assert "username" in w.keys && |"username"| == 8 && |"infrastructure"| == 14 && |"service"| == 7;
    assert "username" in d.keys;
  }

  /** The file without the sections of the remotes that are no longer listed. */
  function Kept(file: File, remotes: Entries): File {
    map s | s in file && !IsRemoved(file, remotes, s) :: file[s]
  }

  function WrittenAll(file: File, remotes: Entries): File {
    Written(Kept(file, remotes), remotes, remotes.Keys)
  }

  lemma WrittenAt(file: File, remotes: Entries, s: string)
    ensures s in WrittenAll(file, remotes) <==>
            s in file.Keys + NamedSections(remotes.Keys) && !IsRemoved(file, remotes, s)
    ensures s in WrittenAll(file, remotes) ==>
              WrittenAll(file, remotes)[s] ==
              if IsListed(remotes, s) then WriteEntry(SectionOf(file, s), remotes[NameOf(s)]) else SectionOf(file, s)
  {
    if IsListed(remotes, s) {
      SectionRoundTrip(s);
      assert s in NamedSections(remotes.Keys);
    }
    if name :| name in remotes && RemoteSection(name) == s {
      NameRoundTrip(name);
    }
  }

  /** Of the sections that are printed names, the ones listed after the writing are of listed remotes. */
  lemma ListedAfterWriting(file: File, remotes: Entries, s: string)
    requires IsRemoteSection(s) && s in WrittenAll(file, remotes)
    ensures NameOf(s) in ListRemotes(WrittenAll(file, remotes)) <==> '\n' !in NameOf(s)
    ensures '\n' !in NameOf(s) ==> NameOf(s) in remotes
  {
    WrittenAt(file, remotes, s);
    SectionRoundTrip(s);
    ParseInvertsPrint(NameOf(s));
    if NameOf(s) in ListRemotes(WrittenAll(file, remotes)) {
      ParsedNamesHaveOneLine(WrittenAll(file, remotes), NameOf(s));
    }
    if name :| name in remotes && RemoteSection(name) == s {
      NameRoundTrip(name);
    }
    if s in file && '\n' !in NameOf(s) {
      assert NameOf(s) in ListRemotes(file);
    }
  }

  lemma UpdateInSteps(file: File, remotes: Entries)
    ensures SimplifiedFile(WrittenAll(file, remotes)) == UpdateRemotes(file, remotes)
  {
    var w, u := WrittenAll(file, remotes), UpdateRemotes(file, remotes);
    var r := SimplifiedFile(w);
    forall s ensures s in r <==> s in u {
      WrittenAt(file, remotes, s);
      if IsRemoteSection(s) && s in w {
        ListedAfterWriting(file, remotes, s);
        VanishesWhenEmptied(file, remotes, s);
      }
    }
    forall s | s in u ensures r[s] == u[s] {
      WrittenAt(file, remotes, s);
      if IsRemoteSection(s) {
        ListedAfterWriting(file, remotes, s);
      }
    }
    SameFiles(r, u);
  }

  lemma VanishesWhenEmptied(file: File, remotes: Entries, s: string)
    requires IsRemoteSection(s) && s in WrittenAll(file, remotes)
    ensures Vanishes(WrittenAll(file, remotes), s) <==> IsEmptied(file, remotes, s)
  {
    ListedAfterWriting(file, remotes, s);
    WrittenAt(file, remotes, s);
    if '\n' !in NameOf(s) {
      NamedInPartAfterWriting(file, remotes, NameOf(s));
      WrittenIsNotBare(SectionOf(file, s), remotes[NameOf(s)]);
      NothingIsWritten(SectionOf(file, s), remotes[NameOf(s)]);
    }
  }

  /** Writing brings the sections of the remotes, and takes none that gives this name. */
  lemma NamedInPartAfterWriting(file: File, remotes: Entries, name: string)
    requires name in remotes
    ensures NamedInPart(WrittenAll(file, remotes), name) <==> NamedElsewhere(file, remotes, name)
  {
    var w := WrittenAll(file, remotes);
    if NamedInPart(file, name) {
      var s :| s in file && ParseRemoteSectionName(s) == Some(name) && s != RemoteSection(name);
      PartialIsKept(file, remotes, s, name);
    } else if NamedElsewhere(file, remotes, name) {
      var n :| n in remotes && n != name && PrintsAs(n, name);
      NameRoundTrip(n);
      NameRoundTrip(name);
      WrittenAt(file, remotes, RemoteSection(n));
    }
    if NamedInPart(w, name) {
      var s :| s in w && ParseRemoteSectionName(s) == Some(name) && s != RemoteSection(name);
      WrittenAt(file, remotes, s);
      if n :| n in remotes && RemoteSection(n) == s {
        assert PrintsAs(n, name);
      }
    }
  }

  lemma PartialIsKept(file: File, remotes: Entries, s: string, name: string)
    requires s in file && ParseRemoteSectionName(s) == Some(name) && s != RemoteSection(name)
    ensures s in WrittenAll(file, remotes)
  {
    WrittenAt(file, remotes, s);
    if IsRemoteSection(s) {
      SectionRoundTrip(s);
      ParseInvertsPrint(NameOf(s));
      if NameOf(s) in ListRemotes(file) {
        ParsedNamesHaveOneLine(file, NameOf(s));
      }
    }
  }

  lemma UnlistedAreRemoved(file: File, remotes: Entries)
    ensures file - NamedSections(ListRemotes(file) - remotes.Keys) == Kept(file, remotes)
  {
    forall s | s in file
      ensures s in NamedSections(ListRemotes(file) - remotes.Keys) <==> IsRemoved(file, remotes, s)
    {
      if IsRemoved(file, remotes, s) {
        SectionRoundTrip(s);
      }
      if name :| name in ListRemotes(file) - remotes.Keys && RemoteSection(name) == s {
        NameRoundTrip(name);
      }
    }
  }

  // ----- The object -----

  class Config {
    var file: File
    var defaultRemote: string
    const remotes: List

    constructor ()
      ensures fresh(remotes)
    {
      file, defaultRemote := map[], "";
      remotes := new List(map[]);
    }

    ghost function Value(): Params
      reads this, remotes
    {
      Params(defaultRemote, remotes.entries)
    }

    /** One turn of the loop of readRemotes. */
    method ReadRemote(name: string)
      modifies `file, remotes
      ensures var section := TouchFields(SectionOf(old(file), RemoteSection(name)));
              && file == old(file)[RemoteSection(name) := section]
              && remotes.entries == old(remotes.entries)[name := ReadEntry(section)]
    {
      var section := TouchFields(SectionOf(file, RemoteSection(name)));
      file := file[RemoteSection(name) := section];
      remotes.Set(name, ReadEntry(section));
    }

    /** listRemotes, with the sections in any order. */
    method ListNames() returns (names: seq<string>)
      ensures exists sections :: IsOrderOf(sections, file) && names == ListedNames(sections)
      ensures Elements(names) == ListRemotes(file)
    {
      names := [];
      var rest := file.Keys;
      ghost var sections: seq<string> := [];
      while rest != {}
        invariant rest <= file.Keys && NoDuplicates(sections)
        invariant forall s :: s in sections <==> s in file.Keys - rest
        invariant names == ListedNames(sections)
        decreases rest
      {
        var s :| s in rest;
        if ParseRemoteSectionName(s).Some? {
          names := names + [ParseRemoteSectionName(s).value];
        }
        assert (sections + [s])[..|sections|] == sections;
        assert s !in sections;
        rest, sections := rest - {s}, sections + [s];
      }
      ListedNamesAre(sections, file);
    }

    /** readRemotes walks the names in any order, and creates what it looks up. */
    method ReadRemotes()
      modifies `file, remotes
      ensures file == AfterReading(old(file))
      ensures remotes.entries == ConfigStore.ReadRemotes(old(file))
    {
      ghost var was := file;
      remotes.entries := map[];
      var names := ListNames();
      ReadNothing(was);
      assert Elements(names[..0]) == {};
      for i := 0 to |names|
        invariant file == Touched(was, Elements(names[..i]))
        invariant remotes.entries == ReadFor(was, Elements(names[..i]))
      {
        ElementsOneMore(names, i);
        ReadOneMore(was, Elements(names[..i]), names[i]);
        ReadRemote(names[i]);
      }
      assert names[..|names|] == names;
    }

    /** updateRemotes. */
    method UpdateRemotes()
      modifies `file
      ensures file == ConfigStore.UpdateRemotes(old(file), remotes.entries)
    {
      ghost var was := file;
      DropUnlisted();
      WriteAll();
      SimplifyRemotes();
      UpdateInSteps(was, remotes.entries);
    }

    method DropUnlisted()
      modifies `file
      ensures file == Kept(old(file), remotes.entries)
    {
      ghost var was := file;
      var names := ListNames();
      assert Elements(names[..0]) == {};
      for i := 0 to |names|
        invariant file == was - NamedSections(Elements(names[..i]) - remotes.entries.Keys)
      {
        ElementsOneMore(names, i);
        if !remotes.Has(names[i]) {
          file := file - {RemoteSection(names[i])};
        }
      }
      assert names[..|names|] == names;
      UnlistedAreRemoved(was, remotes.entries);
    }

    /** One turn of the second loop of updateRemotes. */
    method WriteOne(name: string)
      modifies `file
      ensures file == old(file)[RemoteSection(name) :=
                        WriteEntry(SectionOf(old(file), RemoteSection(name)), EntryFor(remotes.entries, name))]
    {
      var s := RemoteSection(name);
      file := file[s := WriteEntry(SectionOf(file, s), remotes.Get(name))];
    }

    method WriteAll()
      modifies `file
      ensures file == Written(old(file), remotes.entries, remotes.entries.Keys)
    {
      ghost var was := file;
      var keys := remotes.Keys();
      WriteNothing(was, remotes.entries);
      SortedListIs(remotes.entries.Keys);
      for i := 0 to |keys|
        invariant file == Written(was, remotes.entries, Elements(keys[..i]))
      {
        WriteNext(was, remotes.entries, keys, i);
        WriteOne(keys[i]);
      }
      WriteLast(was, remotes.entries, keys);
    }

    /** One turn of the loop of simplifyRemotes. A section left without a comment and without any key
        other than the two it may still drop is deleted; the last two are dropped from the detached section. */
    method SimplifyOne(name: string)
      modifies `file
      ensures var s := RemoteSection(name);
              file == Put(old(file), s, Visit(Lookup(old(file), s)))
    {
      var s := RemoteSection(name);
      var section := DropIfEmpty(DropIfEmpty(SectionOf(file, s), "infrastructure"), "service");
      var deleted := section.keys == map[] && section.comment == "";
      section := DropIfEmpty(DropIfEmpty(section, "username"), "token");
      DroppingSimplifies(SectionOf(file, s));
      if deleted {
        file := file - {s};
      } else {
        file := file[s := section];
      }
    }

    method SimplifyRemotes()
      modifies `file
      ensures file == SimplifiedFile(old(file))
    {
      ghost var was := file;
      var names := ListNames();
      VisitNames(names);
      ghost var sections :| IsOrderOf(sections, was) && names == ListedNames(sections);
      VisitsSimplify(was, sections);
    }

    method VisitNames(names: seq<string>)
      modifies `file
      ensures file == VisitAll(old(file), names)
    {
      ghost var was := file;
      for i := 0 to |names|
        invariant file == VisitAll(was, names[..i])
      {
        assert names[..i + 1][..i] == names[..i];
        SimplifyOne(names[i]);
      }
      assert names[..|names|] == names;
    }

    // ----- Load and Save -----

    method LoadDefaultRemotes()
      modifies remotes
      ensures remotes.entries == WithCloudRemote(old(remotes.entries))
    {
      if remotes.Get(CLOUD_REMOTE).infrastructure == "" {
        remotes.Set(CLOUD_REMOTE, DEFAULT_CLOUD_ENTRY);
      }
    }

    method ValidateDefaultRemote() returns (ok: bool)
      ensures ok <==> IsValid(Value())
    {
      var keys := remotes.Keys();
      for i := 0 to |keys|
        invariant defaultRemote !in keys[..i]
      {
        if defaultRemote == keys[i] {
          assert keys[i] in keys;
          return true;
        }
      }
      assert keys[..|keys|] == keys;
      return false;
    }

    /** Load: stored is what is on disk. */
    method Load(stored: Option<File>) returns (ok: bool)
      modifies this, remotes
      ensures file == LoadedFile(stored) && Value() == LoadParams(stored)
      ensures ok <==> Accepted(stored)
    {
      match stored {
        case None =>
          file := map[DEFAULT_SECTION := NO_SECTION];
          remotes.entries := map[];
        case Some(f) =>
          file := f;
          ReadRemotes();
          ReadingKeepsDefault(f);
      }
      defaultRemote := DefaultRemote(file);
      LoadDefaultRemotes();
      ok := ValidateDefaultRemote();
    }

    method Save()
      modifies `file
      ensures file == SaveParams(old(file), Value())
    {
      file := ReflectDefault(file, defaultRemote);
      UpdateRemotes();
    }

    // ----- The remote commands, after a successful Load -----

    method SetRun(name: string, url: string)
      modifies this, remotes
      ensures Change(old(Value()), Command.Set(name, url)) == Some(Value())
      ensures file == SaveParams(old(file), Value())
    {
      if remotes.Has(name) {
        remotes.Del(name);
      }
      remotes.Set(name, NO_ENTRY.(infrastructure := url));
      assert remotes.entries == old(remotes.entries)[name := NO_ENTRY.(infrastructure := url)];
      Save();
    }

    method RenameRun(from: string, name: string) returns (ok: bool)
      modifies this, remotes
      ensures ok ==> Change(old(Value()), Rename(from, name)) == Some(Value()) && file == SaveParams(old(file), Value())
      ensures !ok ==> Change(old(Value()), Rename(from, name)) == None && Value() == old(Value()) && file == old(file)
    {
      if !remotes.Has(from) {
        return false;
      }
      if remotes.Has(name) {
        return false;
      }
      var renamed := remotes.Get(from);
      remotes.Del(from);
      remotes.Set(name, renamed);
      Save();
      return true;
    }

    method RemoveRun(name: string) returns (ok: bool)
      modifies this, remotes
      ensures ok ==> Change(old(Value()), Remove(name)) == Some(Value()) && file == SaveParams(old(file), Value())
      ensures !ok ==> Change(old(Value()), Remove(name)) == None && Value() == old(Value()) && file == old(file)
    {
      if !remotes.Has(name) {
        return false;
      }
      remotes.Del(name);
      if name == defaultRemote && name != CLOUD_REMOTE {
        defaultRemote := CLOUD_REMOTE;
      }
      Save();
      return true;
    }

    method SetURLRun(name: string, url: string) returns (ok: bool)
      modifies this, remotes
      ensures ok ==> Change(old(Value()), SetURL(name, url)) == Some(Value()) && file == SaveParams(old(file), Value())
      ensures !ok ==> Change(old(Value()), SetURL(name, url)) == None && Value() == old(Value()) && file == old(file)
    {
      if !remotes.Has(name) {
        return false;
      }
      remotes.Set(name, remotes.Get(name).(infrastructure := url));
      Save();
      return true;
    }

    method SaveDefaultRemote(name: string) returns (ok: bool)
      modifies this, remotes
      ensures ok ==> Change(old(Value()), Default(name)) == Some(Value()) && file == SaveParams(old(file), Value())
      ensures !ok ==> Change(old(Value()), Default(name)) == None && Value() == old(Value()) && file == old(file)
    {
      var keys := remotes.Keys();
      for i := 0 to |keys|
        invariant name !in keys[..i]
        invariant Value() == old(Value()) && file == old(file)
      {
        if name == keys[i] {
          assert keys[i] in keys;
          defaultRemote := name;
          Save();
          return true;
        }
      }
      assert keys[..|keys|] == keys;
      return false;
    }
  }

  lemma ReadingKeepsDefault(file: File)
    ensures DefaultRemote(AfterReading(file)) == DefaultRemote(file)
  {
    DefaultIsNoRemote();
    forall name ensures RemoteSection(name) != DEFAULT_SECTION {
      NameRoundTrip(name);
    }
  }
}
