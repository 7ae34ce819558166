/** remotes/remotes.go: the list of remotes. */
module Remotes {
  import opened Text

  datatype Entry = Entry(
    infrastructure: string,
    infrastructureComment: string,
    service: string,
    serviceComment: string,
    username: string,
    usernameComment: string,
    token: string,
    tokenComment: string,
    comment: string)

  const CLOUD_REMOTE := "lcp"
  const NO_ENTRY := Entry("", "", "", "", "", "", "", "", "")

  type Entries = map<string, Entry>

  /** What Get returns: the zero entry for an unknown remote. */
  function EntryFor(entries: Entries, name: string): Entry {
    if name in entries then entries[name] else NO_ENTRY
  }

  class List {
    var entries: Entries

    constructor (entries: Entries)
      ensures this.entries == entries
    {
      this.entries := entries;
    }

    /** The names of the remotes in order, whatever the order in which the map is walked. */
    method Keys() returns (keys: seq<string>)
      ensures keys == SortedList(entries.Keys) && forall k :: k in keys <==> k in entries
    {
      keys := [];
      var rest := entries.Keys;
      while rest != {}
        invariant rest <= entries.Keys
        invariant IsSortedListOf(keys, entries.Keys - rest)
        decreases rest
      {
        var k :| k in rest;
        keys := InsertKey(keys, k, entries.Keys - rest);
        rest := rest - {k};
        assert entries.Keys - rest == (entries.Keys - (rest + {k})) + {k};
      }
      assert entries.Keys - rest == entries.Keys;
      SortedListIs(entries.Keys);
      SortedListIsUnique(keys, SortedList(entries.Keys), entries.Keys);
    }

    predicate Has(name: string)
      reads this
    {
      name in entries
    }

    function Get(name: string): Entry
      reads this
    {
      EntryFor(entries, name)
    }

    method Set(name: string, entry: Entry)
      modifies this
      ensures entries == old(entries)[name := entry]
    {
      entries := entries[name := entry];
    }

    method Del(name: string)
      modifies this
      ensures entries == old(entries) - {name}
    {
      entries := entries - {name};
    }
  }

  /** One insertion of the sort of the names. */
  method InsertKey(keys: seq<string>, k: string, ghost s: set<string>) returns (r: seq<string>)
    requires IsSortedListOf(keys, s) && k !in s
    ensures IsSortedListOf(r, s + {k})
  {
    var i := |keys|;
    while i > 0 && Less(k, keys[i - 1])
      invariant 0 <= i <= |keys|
      invariant forall j :: i <= j < |keys| ==> Less(k, keys[j])
    {
      i := i - 1;
      forall j | i < j < |keys| ensures Less(k, keys[j]) {
        LessTransitive(k, keys[i], keys[j]);
      }
    }
    forall j | 0 <= j < i ensures Less(keys[j], k) {
      assert keys[i - 1] in s;
      LessTrichotomy(k, keys[i - 1]);
      if j < i - 1 {
        LessTransitive(keys[j], keys[i - 1], k);
      }
    }
    r := keys[..i] + [k] + keys[i..];
    forall x ensures x in r <==> x in s + {k} {
      assert keys == keys[..i] + keys[i..];
    }
  }
}
