/**
  The navigation table of the `DocsNav` component
  (src/components/docs-nav/docs-nav.tsx): the docs blob is turned into five
  named lists of links (documentation, modules, roles, plugins, playbooks),
  each sorted with the component's two-level comparator; two selection rules
  pick the current entry and the active category; and `render` keeps the last
  table in a cache keyed by the identity of the blob.
 */
module DocsNav {
  import opened JsString

  datatype Option<T> = None | Some(value: T)

  /** A file of the blob's `documentation_files`; only its name is read. */
  datatype DocFile = DocFile(name: string)

  /** An item of the blob's `contents`. */
  datatype ContentItem = ContentItem(contentName: string, contentType: string)

  /** The docs blob: either list may be missing. */
  datatype DocsBlob = DocsBlob(
    documentationFiles: Option<seq<DocFile>>,
    contents: Option<seq<ContentItem>>)

  /** One link of the navigation: its label, the name it links to and its
      type (`docs` or the content type of the item). */
  datatype DocsEntry = DocsEntry(display: string, name: string, entryType: string)

  /** The five lists of the table, in the order of the table's keys. */
  datatype Category = Documentation | Modules | Roles | Plugins | Playbooks

  datatype Table = Table(
    documentation: seq<DocsEntry>,
    modules: seq<DocsEntry>,
    roles: seq<DocsEntry>,
    plugins: seq<DocsEntry>,
    playbooks: seq<DocsEntry>)
  {
    function Get(k: Category): seq<DocsEntry>
    {
      match k
      case Documentation => documentation
      case Modules => modules
      case Roles => roles
      case Plugins => plugins
      case Playbooks => playbooks
    }
  }

  /** The link that every table has, whatever the blob holds. */
  const Readme := DocsEntry("Readme", "readme", "docs")

  /** The documentation files; a missing list counts as empty. */
  function FilesOf(blob: DocsBlob): seq<DocFile>
  {
    if blob.documentationFiles.Some? then blob.documentationFiles.value else []
  }

  /** The content items; a missing list counts as empty. */
  function ContentsOf(blob: DocsBlob): seq<ContentItem>
  {
    if blob.contents.Some? then blob.contents.value else []
  }

  /** The label of a documentation file: the part of its name before the
      first `.`, split at `_` and joined with spaces, then capitalised. */
  function DisplayLabel(fileName: string): string
  {
    Capitalize(Join(Split(Split(fileName, '.')[0], '_'), " "))
  }

  function DocEntry(f: DocFile): DocsEntry
  {
    DocsEntry(DisplayLabel(f.name), f.name, "docs")
  }

  /** `getContentEntry`: an item links under its own name and type. */
  function ContentEntry(c: ContentItem): DocsEntry
  {
    DocsEntry(c.contentName, c.contentName, c.contentType)
  }

  /** The list a content item is pushed to, by its type alone. */
  function CategoryOf(contentType: string): (k: Category)
    ensures k != Documentation
  {
    if contentType == "role" then Roles
    else if contentType == "module" then Modules
    else if contentType == "playbook" then Playbooks
    else Plugins
  }

  function DocEntries(files: seq<DocFile>): seq<DocsEntry>
  {
    seq(|files|, i requires 0 <= i < |files| => DocEntry(files[i]))
  }

  /** The entries pushed to list `k` while walking `contents` in order. */
  function EntriesIn(contents: seq<ContentItem>, k: Category): seq<DocsEntry>
  {
    if |contents| == 0 then []
    else
      var last := contents[|contents| - 1];
      EntriesIn(contents[..|contents| - 1], k)
        + (if CategoryOf(last.contentType) == k then [ContentEntry(last)] else [])
  }

  /** Everything pushed to list `k` before the lists are sorted. */
  function Pushed(blob: DocsBlob, k: Category): seq<DocsEntry>
  {
    if k == Documentation then [Readme] + DocEntries(FilesOf(blob))
    else EntriesIn(ContentsOf(blob), k)
  }

  // ---------------------------------------------------------------------
  // The order of the lists

  /** `display.startsWith('_')`. */
  predicate StartsWithUnderscore(e: DocsEntry)
  {
    |e.display| > 0 && e.display[0] == '_'
  }

  /** The comparator given to `sort`: positive when `a` goes after `b`. It
      answers -1 for two equal labels, whichever comes first. */
  function Compare(a: DocsEntry, b: DocsEntry): int
  {
    if StartsWithUnderscore(a) && !StartsWithUnderscore(b) then 1
    else if !StartsWithUnderscore(a) && StartsWithUnderscore(b) then -1
    else if Less(b.display, a.display) then 1
    else -1
  }

  /** `a` may stand before `b`: labels without a leading `_` come before
      labels with one, and within each group labels do not decrease. */
  predicate InOrder(a: DocsEntry, b: DocsEntry)
  {
    if StartsWithUnderscore(a) == StartsWithUnderscore(b) then LessOrEqual(a.display, b.display)
    else StartsWithUnderscore(b)
  }

  ghost predicate Ordered(s: seq<DocsEntry>)
  {
    forall i, j :: 0 <= i < j < |s| ==> InOrder(s[i], s[j])
  }

  /** `t` is a table that `parseLinks` may build from `blob`: every list is
      an ordering of exactly what was pushed to it. */
  ghost predicate IsTableOf(blob: DocsBlob, t: Table)
  {
    forall k: Category ::
      Ordered(t.Get(k)) && multiset(t.Get(k)) == multiset(Pushed(blob, k))
  }

  /** The comparator moves `a` behind `b` exactly when the two are out of
      order. */
  lemma CompareMovesExactlyMisordered(a: DocsEntry, b: DocsEntry)
    ensures Compare(a, b) > 0 <==> !InOrder(a, b)
  {
    if StartsWithUnderscore(a) == StartsWithUnderscore(b) {
      LessAsymmetric(a.display, b.display);
      LessIrreflexive(a.display);
      if a.display != b.display {
        LessTotal(a.display, b.display);
      }
    }
  }

  lemma InOrderTotal(a: DocsEntry, b: DocsEntry)
    ensures InOrder(a, b) || InOrder(b, a)
  {
    if a.display != b.display {
      LessTotal(a.display, b.display);
    }
  }

  lemma InOrderTransitive(a: DocsEntry, b: DocsEntry, c: DocsEntry)
    requires InOrder(a, b) && InOrder(b, c)
    ensures InOrder(a, c)
  {
    if StartsWithUnderscore(a) == StartsWithUnderscore(c)
      && a.display != b.display && b.display != c.display
    {
      LessTransitive(a.display, b.display, c.display);
    }
  }

  // ---------------------------------------------------------------------
  // Building the table

  /** `list.sort(compare)` on one list of the table, in place: insertion by
      adjacent swaps, moving an entry down while the comparator is positive. */
  method SortInPlace(a: array<DocsEntry>)
    modifies a
    ensures Ordered(a[..])
    ensures multiset(a[..]) == old(multiset(a[..]))
  {
    for i := 0 to a.Length
      invariant Ordered(a[..i])
      invariant multiset(a[..]) == old(multiset(a[..]))
    {
      InsertLast(a, i);
    }
    assert a[..a.Length] == a[..];
  }

  /** One round of the insertion: the entry at `i` moves down past every
      entry the comparator puts after it; the entries after `i` stay. */
  method InsertLast(a: array<DocsEntry>, i: nat)
    requires i < a.Length
    requires Ordered(a[..i])
    modifies a
    ensures Ordered(a[..i + 1])
    ensures multiset(a[..]) == old(multiset(a[..]))
    ensures a[i + 1..] == old(a[i + 1..])
  {
    var j := i;
    assert Inserting(a[..], i, j) by {
      forall k, m | 0 <= k < m < i ensures InOrder(a[k], a[m]) {
        assert a[..i][k] == a[k] && a[..i][m] == a[m];
      }
    }
    while j > 0 && Compare(a[j - 1], a[j]) > 0
      invariant 0 <= j <= i
      invariant Inserting(a[..], i, j)
      invariant multiset(a[..]) == old(multiset(a[..]))
      invariant a[i + 1..] == old(a[i + 1..])
    {
      CompareMovesExactlyMisordered(a[j - 1], a[j]);
      ghost var s := a[..];
      a[j - 1], a[j] := a[j], a[j - 1];
      assert a[..] == s[j - 1 := s[j]][j := s[j - 1]];
      SwapKeepsInserting(s, i, j);
      j := j - 1;
    }
    if j > 0 {
      CompareMovesExactlyMisordered(a[j - 1], a[j]);
    }
    InsertionDone(a[..], i, j);
  }

  /** Halfway through a round of the insertion: the entries up to `i`
      other than the moving one at `j` are in order, and the moving one is
      in order with everything above it. */
  ghost predicate Inserting(s: seq<DocsEntry>, i: nat, j: nat)
    requires j <= i < |s|
  {
    && (forall k, m :: 0 <= k < m <= i && k != j && m != j ==> InOrder(s[k], s[m]))
    && (forall m :: j < m <= i ==> InOrder(s[j], s[m]))
  }

  /** Swapping the moving entry with a misordered neighbour below it moves
      the round one step down. */
  lemma SwapKeepsInserting(s: seq<DocsEntry>, i: nat, j: nat)
    requires 0 < j <= i < |s| && Inserting(s, i, j)
    requires !InOrder(s[j - 1], s[j])
    ensures Inserting(s[j - 1 := s[j]][j := s[j - 1]], i, j - 1)
    ensures multiset(s[j - 1 := s[j]][j := s[j - 1]]) == multiset(s)
  {
    InOrderTotal(s[j - 1], s[j]);
    var t := s[j - 1 := s[j]][j := s[j - 1]];
    forall m | j - 1 < m <= i ensures InOrder(t[j - 1], t[m]) {
    }
    forall k, m | 0 <= k < m <= i && k != j - 1 && m != j - 1 ensures InOrder(t[k], t[m]) {
    }
  }

  /** A round ends ordered once the moving entry is at the bottom or in
      order with the entry below it. */
  lemma InsertionDone(s: seq<DocsEntry>, i: nat, j: nat)
    requires j <= i < |s| && Inserting(s, i, j)
    requires j > 0 ==> InOrder(s[j - 1], s[j])
    ensures Ordered(s[..i + 1])
  {
    forall k, m | 0 <= k < m <= i ensures InOrder(s[k], s[m]) {
      if m == j && k < j - 1 {
        InOrderTransitive(s[k], s[j - 1], s[j]);
      }
    }
  }

  /** Sorts a copy of one list of the table. */
  method SortEntries(s: seq<DocsEntry>) returns (r: seq<DocsEntry>)
    ensures Ordered(r)
    ensures multiset(r) == multiset(s)
  {
    var a := new DocsEntry[|s|](i requires 0 <= i < |s| => s[i]);
    assert a[..] == s;
    SortInPlace(a);
    r := a[..];
  }

  /** `parseLinks`: pushes the readme link and one link per documentation
      file to `documentation`, each content item to the list of its type,
      and sorts the five lists. */
  method ParseLinks(blob: DocsBlob) returns (table: Table)
    ensures IsTableOf(blob, table)
  {
    var documentation := [Readme];
    var modules: seq<DocsEntry> := [];
    var roles: seq<DocsEntry> := [];
    var plugins: seq<DocsEntry> := [];
    var playbooks: seq<DocsEntry> := [];

    if blob.documentationFiles.Some? {
      var files := blob.documentationFiles.value;
      for i := 0 to |files|
        invariant documentation == [Readme] + DocEntries(files[..i])
      {
        documentation := documentation + [DocEntry(files[i])];
      }
      assert files[..|files|] == files;
    }

    if blob.contents.Some? {
      var contents := blob.contents.value;
      for i := 0 to |contents|
        invariant modules == EntriesIn(contents[..i], Modules)
        invariant roles == EntriesIn(contents[..i], Roles)
        invariant plugins == EntriesIn(contents[..i], Plugins)
        invariant playbooks == EntriesIn(contents[..i], Playbooks)
      {
        var content := contents[i];
        assert contents[..i + 1][..i] == contents[..i];
        if content.contentType == "role" {
          roles := roles + [ContentEntry(content)];
        } else if content.contentType == "module" {
          modules := modules + [ContentEntry(content)];
        } else if content.contentType == "playbook" {
          playbooks := playbooks + [ContentEntry(content)];
        } else {
          plugins := plugins + [ContentEntry(content)];
        }
      }
      assert contents[..|contents|] == contents;
    }

    assert documentation == Pushed(blob, Documentation);
    assert modules == Pushed(blob, Modules) && roles == Pushed(blob, Roles);
    assert plugins == Pushed(blob, Plugins) && playbooks == Pushed(blob, Playbooks);
    documentation := SortEntries(documentation);
    modules := SortEntries(modules);
    roles := SortEntries(roles);
    plugins := SortEntries(plugins);
    playbooks := SortEntries(playbooks);
    table := Table(documentation, modules, roles, plugins, playbooks);
    AssembledTable(blob, table);
  }

  /** The table is one of `blob` as soon as each of its five lists is an
      ordering of what was pushed to that list. */
  lemma AssembledTable(blob: DocsBlob, t: Table)
    requires Ordered(t.documentation) && multiset(t.documentation) == multiset(Pushed(blob, Documentation))
    requires Ordered(t.modules) && multiset(t.modules) == multiset(Pushed(blob, Modules))
    requires Ordered(t.roles) && multiset(t.roles) == multiset(Pushed(blob, Roles))
    requires Ordered(t.plugins) && multiset(t.plugins) == multiset(Pushed(blob, Plugins))
    requires Ordered(t.playbooks) && multiset(t.playbooks) == multiset(Pushed(blob, Playbooks))
    ensures IsTableOf(blob, t)
  {
    forall k: Category
      ensures Ordered(t.Get(k)) && multiset(t.Get(k)) == multiset(Pushed(blob, k))
    {
      match k
      case Documentation =>
      case Modules =>
      case Roles =>
      case Plugins =>
      case Playbooks =>
    }
  }

  // ---------------------------------------------------------------------
  // Selection

  /** JavaScript falsiness of an optional string: missing or empty. */
  predicate Falsy(s: Option<string>)
  {
    s.None? || s.value == ""
  }

  /** `isSelected`: the readme is current when no name is selected;
      otherwise the entry whose name and type are the selected ones is. */
  function IsSelected(entry: DocsEntry, selectedName: Option<string>, selectedType: Option<string>): bool
  {
    if Falsy(selectedName) && entry.name == "readme" then true
    else selectedName == Some(entry.name) && selectedType == Some(entry.entryType)
  }

  /** `getSelectedCategory`: the list marked active for the selected type. */
  function GetSelectedCategory(selectedType: Option<string>): (k: Category)
    ensures k != Playbooks
  {
    if Falsy(selectedType) || selectedType.value == "docs" then Documentation
    else if selectedType.value == "role" then Roles
    else if selectedType.value == "module" then Modules
    else Plugins
  }

  // ---------------------------------------------------------------------
  // The component's cache

  /** A blob as `render` receives it: `id` stands for the identity of the
      object, which is all the cache compares; `blob` is what it holds. */
  datatype BlobRef = BlobRef(id: nat, blob: DocsBlob)

  class DocsNav {
    var docsBlobCache: Option<BlobRef>
    var tableCache: Option<Table>

    /** A cached table is always a table of the cached blob. */
    ghost predicate Valid()
      reads this
    {
      tableCache.Some? ==> docsBlobCache.Some? && IsTableOf(docsBlobCache.value.blob, tableCache.value)
    }

    /** `render` reuses the cached table for this blob. */
    predicate Hit(docs: BlobRef)
      reads this
    {
      tableCache.Some? && docsBlobCache.Some? && docsBlobCache.value.id == docs.id
    }

    constructor ()
      ensures Valid()
      ensures docsBlobCache == None && tableCache == None
    {
      docsBlobCache := None;
      tableCache := None;
    }

    /** The cache check of `render`: the table is rebuilt when there is none
        or the blob is not the cached one, and reused otherwise. */
    method Render(docs: BlobRef) returns (table: Table)
      requires Valid()
      modifies this
      ensures Valid()
      ensures tableCache == Some(table)
      ensures old(Hit(docs)) ==> table == old(tableCache.value) && docsBlobCache == old(docsBlobCache)
      ensures !old(Hit(docs)) ==> docsBlobCache == Some(docs) && IsTableOf(docs.blob, table)
      ensures old(docsBlobCache) == Some(docs) || !old(Hit(docs)) ==> IsTableOf(docs.blob, table)
    {
      if tableCache.None? || docsBlobCache.None? || docsBlobCache.value.id != docs.id {
        var t := ParseLinks(docs.blob);
        tableCache := Some(t);
        docsBlobCache := Some(docs);
      }
      table := tableCache.value;
    }
  }
}
