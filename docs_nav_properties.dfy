/**
  What a navigation table built by `parseLinks` guarantees, stated over
  `IsTableOf`, and how the two selection rules relate to the table.
 */
module DocsNavProperties {
  import opened JsString
  import opened DocsNav

  /** The entries of the content items, in input order. */
  function ContentEntries(contents: seq<ContentItem>): seq<DocsEntry>
  {
    seq(|contents|, i requires 0 <= i < |contents| => ContentEntry(contents[i]))
  }

  /** The display labels of a list, in order. */
  function Labels(s: seq<DocsEntry>): seq<string>
  {
    seq(|s|, i requires 0 <= i < |s| => s[i].display)
  }

  // ---------------------------------------------------------------------
  // Labels of documentation files

  /** The label of a file name is the part before the first `.`, with every
      `_` replaced by a space and only its first character upper-cased. */
  lemma DisplayLabelSpec(fileName: string)
    ensures var shown := DisplayLabel(fileName); var n := |shown|;
      && n <= |fileName|
      && (forall i :: 0 <= i < n ==> fileName[i] != '.')
      && (n < |fileName| ==> fileName[n] == '.')
      && (forall i :: 1 <= i < n ==> shown[i] == Subst(fileName[i], '_', ' '))
      && (n > 0 ==> shown[0] == ToUpperAscii(Subst(fileName[0], '_', ' ')))
  {
    var stem := Split(fileName, '.')[0];
    SplitFirstPiece(fileName, '.');
    SplitJoinReplaces(stem, '_', ' ');
    var shown := DisplayLabel(fileName);
    assert |shown| == |stem|;
    assert fileName[..|stem|] == stem;
    forall i | 0 <= i < |stem| ensures fileName[i] == stem[i] {
    }
  }

  /** No documentation link starts with `_`: a leading `_` of the file name
      has become a space, so the underscore rule of the sort never applies
      to the documentation list. */
  lemma DocEntryNotUnderscored(f: DocFile)
    ensures !StartsWithUnderscore(DocEntry(f))
  {
    DisplayLabelSpec(f.name);
  }

  // ---------------------------------------------------------------------
  // What lands in which list

  /** Walking the items, the four content lists together receive each entry
      as often as it occurs among the items' entries, and `documentation`
      receives none. */
  lemma {:induction false} EntriesInPartition(contents: seq<ContentItem>, e: DocsEntry)
    ensures multiset(EntriesIn(contents, Modules))[e] + multiset(EntriesIn(contents, Roles))[e]
      + multiset(EntriesIn(contents, Plugins))[e] + multiset(EntriesIn(contents, Playbooks))[e]
      == multiset(ContentEntries(contents))[e]
    ensures EntriesIn(contents, Documentation) == []
  {
    if |contents| > 0 {
      EntriesInPartition(contents[..|contents| - 1], e);
      ContentEntriesCountStep(contents, e);
      EntriesInCountStep(contents, Modules, e);
      EntriesInCountStep(contents, Roles, e);
      EntriesInCountStep(contents, Plugins, e);
      EntriesInCountStep(contents, Playbooks, e);
      EntriesInStep(contents, Documentation);
    }
  }

  /** Pushing the last item adds its entry to its own list and to no other. */
  lemma EntriesInStep(contents: seq<ContentItem>, k: Category)
    requires |contents| > 0
    ensures var last := contents[|contents| - 1];
      EntriesIn(contents, k) == EntriesIn(contents[..|contents| - 1], k)
        + if CategoryOf(last.contentType) == k then [ContentEntry(last)] else []
  {
  }

  lemma EntriesInCountStep(contents: seq<ContentItem>, k: Category, e: DocsEntry)
    requires |contents| > 0
    ensures var last := contents[|contents| - 1];
      multiset(EntriesIn(contents, k))[e] == multiset(EntriesIn(contents[..|contents| - 1], k))[e]
        + if CategoryOf(last.contentType) == k && ContentEntry(last) == e then 1 else 0
  {
    EntriesInStep(contents, k);
  }

  lemma ContentEntriesCountStep(contents: seq<ContentItem>, e: DocsEntry)
    requires |contents| > 0
    ensures var last := contents[|contents| - 1];
      multiset(ContentEntries(contents))[e] == multiset(ContentEntries(contents[..|contents| - 1]))[e]
        + if ContentEntry(last) == e then 1 else 0
  {
    var init := contents[..|contents| - 1];
    assert ContentEntries(contents) == ContentEntries(init) + [ContentEntry(contents[|contents| - 1])];
  }

  /** The four content lists together are as long as the list of items. */
  lemma {:induction false} EntriesInLength(contents: seq<ContentItem>)
    ensures |EntriesIn(contents, Modules)| + |EntriesIn(contents, Roles)|
      + |EntriesIn(contents, Plugins)| + |EntriesIn(contents, Playbooks)| == |contents|
  {
    if |contents| > 0 {
      EntriesInLength(contents[..|contents| - 1]);
      EntriesInStep(contents, Modules);
      EntriesInStep(contents, Roles);
      EntriesInStep(contents, Plugins);
      EntriesInStep(contents, Playbooks);
    }
  }

  /** An entry is pushed to list `k` exactly when it is the entry of an item
      whose type maps to `k`. */
  lemma {:induction false} EntriesInMembers(contents: seq<ContentItem>, k: Category, e: DocsEntry)
    ensures e in EntriesIn(contents, k)
      <==> exists c :: c in contents && CategoryOf(c.contentType) == k && e == ContentEntry(c)
  {
    if |contents| > 0 {
      var init := contents[..|contents| - 1];
      var last := contents[|contents| - 1];
      assert contents == init + [last];
      EntriesInMembers(init, k, e);
      if exists c :: c in contents && CategoryOf(c.contentType) == k && e == ContentEntry(c) {
        var c :| c in contents && CategoryOf(c.contentType) == k && e == ContentEntry(c);
        if c != last {
          assert c in init;
        }
      }
    }
  }

  /** The readme link is always in `documentation`, whose length is one more
      than the number of documentation files (none when the list is missing). */
  lemma ReadmeAlwaysListed(blob: DocsBlob, t: Table)
    requires IsTableOf(blob, t)
    ensures Readme in t.documentation
    ensures |t.documentation| == 1 + |FilesOf(blob)|
  {
    assert t.Get(Documentation) == t.documentation;
    assert multiset(t.documentation) == multiset(Pushed(blob, Documentation));
    assert Readme in multiset(Pushed(blob, Documentation));
    assert |multiset(t.documentation)| == |multiset(Pushed(blob, Documentation))|;
  }

  /** `documentation` holds the readme link and one link per file, named by
      the raw file name, of type `docs`, labelled by `DisplayLabel`. */
  lemma DocumentationLinks(blob: DocsBlob, t: Table, e: DocsEntry)
    requires IsTableOf(blob, t)
    ensures e in t.documentation <==>
      e == Readme || exists f :: f in FilesOf(blob) && e == DocsEntry(DisplayLabel(f.name), f.name, "docs")
  {
    assert e in t.documentation <==> e in Pushed(blob, Documentation) by {
      assert t.Get(Documentation) == t.documentation;
      assert e in t.documentation <==> e in multiset(Pushed(blob, Documentation));
    }
    DocEntriesMembers(FilesOf(blob), e);
  }

  /** The documentation entries are exactly the entries of the files. */
  lemma DocEntriesMembers(files: seq<DocFile>, e: DocsEntry)
    ensures e in DocEntries(files) <==> exists f :: f in files && e == DocEntry(f)
  {
    if e in DocEntries(files) {
      var i :| 0 <= i < |files| && DocEntries(files)[i] == e;
      assert files[i] in files;
    }
    if exists f :: f in files && e == DocEntry(f) {
      var f :| f in files && e == DocEntry(f);
      var i :| 0 <= i < |files| && files[i] == f;
      assert DocEntries(files)[i] == e;
    }
  }

  /** The four content lists together hold each content item's entry as
      often as it occurs among the items, and are together as long as the
      list of items (empty when `contents` is missing). */
  lemma ContentListCounts(blob: DocsBlob, t: Table)
    requires IsTableOf(blob, t)
    ensures forall e ::
      multiset(t.modules)[e] + multiset(t.roles)[e] + multiset(t.plugins)[e] + multiset(t.playbooks)[e]
      == multiset(ContentEntries(ContentsOf(blob)))[e]
    ensures |t.modules| + |t.roles| + |t.plugins| + |t.playbooks| == |ContentsOf(blob)|
  {
    var contents := ContentsOf(blob);
    assert multiset(t.Get(Modules)) == multiset(Pushed(blob, Modules));
    assert multiset(t.Get(Roles)) == multiset(Pushed(blob, Roles));
    assert multiset(t.Get(Plugins)) == multiset(Pushed(blob, Plugins));
    assert multiset(t.Get(Playbooks)) == multiset(Pushed(blob, Playbooks));
    forall e
      ensures multiset(t.modules)[e] + multiset(t.roles)[e] + multiset(t.plugins)[e]
        + multiset(t.playbooks)[e] == multiset(ContentEntries(contents))[e]
    {
      EntriesInPartition(contents, e);
    }
    EntriesInLength(contents);
    assert |t.modules| == |multiset(t.modules)| && |t.roles| == |multiset(t.roles)|;
    assert |t.plugins| == |multiset(t.plugins)| && |t.playbooks| == |multiset(t.playbooks)|;
  }

  /** Every entry of a content list is the entry of an item (label and name
      are the item's name) whose type selects that list. */
  lemma ContentListMembers(blob: DocsBlob, t: Table, k: Category, e: DocsEntry)
    requires IsTableOf(blob, t)
    requires k != Documentation && e in t.Get(k)
    ensures e.display == e.name && CategoryOf(e.entryType) == k
    ensures exists c :: c in ContentsOf(blob) && e == ContentEntry(c)
  {
    assert e in multiset(Pushed(blob, k));
    EntriesInMembers(ContentsOf(blob), k, e);
  }

  /** Each content item's entry is in the list its type selects. */
  lemma ContentItemListed(blob: DocsBlob, t: Table, c: ContentItem)
    requires IsTableOf(blob, t)
    requires c in ContentsOf(blob)
    ensures ContentEntry(c) in t.Get(CategoryOf(c.contentType))
  {
    var k := CategoryOf(c.contentType);
    EntriesInMembers(ContentsOf(blob), k, ContentEntry(c));
    assert ContentEntry(c) in multiset(Pushed(blob, k));
  }

  // ---------------------------------------------------------------------
  // The order of the lists

  /** A list is `Ordered` exactly when the source's comparator is negative on
      every pair taken in list order, so `sort` would move nothing. */
  lemma OrderedMeansComparatorAgrees(s: seq<DocsEntry>)
    ensures Ordered(s) <==> forall i, j :: 0 <= i < j < |s| ==> Compare(s[i], s[j]) < 0
  {
    forall i, j | 0 <= i < j < |s| ensures InOrder(s[i], s[j]) <==> Compare(s[i], s[j]) < 0 {
      CompareMovesExactlyMisordered(s[i], s[j]);
    }
  }

  /** Two entries in order both ways have the same label. */
  lemma InOrderAntisymmetric(a: DocsEntry, b: DocsEntry)
    requires InOrder(a, b) && InOrder(b, a)
    ensures a.display == b.display
  {
    LessAsymmetric(a.display, b.display);
  }

  /** The sorted lists are determined up to the order of entries with equal
      labels: two orderings of the same entries show the same labels in the
      same order. */
  lemma {:induction false} OrderedLabelsUnique(r: seq<DocsEntry>, s: seq<DocsEntry>)
    requires Ordered(r) && Ordered(s)
    requires multiset(r) == multiset(s)
    ensures Labels(r) == Labels(s)
  {
    assert |r| == |multiset(r)| == |multiset(s)| == |s|;
    if |r| > 0 {
      assert r[0] in multiset(s) && s[0] in multiset(r);
      var p :| 0 <= p < |s| && s[p] == r[0];
      var q :| 0 <= q < |r| && r[q] == s[0];
      FirstIsLeast(s, p);
      FirstIsLeast(r, q);
      InOrderAntisymmetric(s[0], r[0]);
      var s' := s[0 := s[p]][p := s[0]];
      ExchangeEqualLabels(s, p);
      DropFirst(r, s');
      OrderedLabelsUnique(r[1..], s'[1..]);
      LabelsCons(r);
      LabelsCons(s');
    }
  }

  /** The first entry of an ordered list is in order with every entry. */
  lemma FirstIsLeast(s: seq<DocsEntry>, p: nat)
    requires Ordered(s) && p < |s|
    ensures InOrder(s[0], s[p])
  {
    if p == 0 {
      LessIrreflexive(s[0].display);
    }
  }

  /** Exchanging the first entry with a later one of the same label keeps
      the list ordered, its labels and its entries. */
  lemma ExchangeEqualLabels(s: seq<DocsEntry>, p: nat)
    requires Ordered(s) && p < |s| && s[0].display == s[p].display
    ensures var s' := s[0 := s[p]][p := s[0]];
      Ordered(s') && Labels(s') == Labels(s) && multiset(s') == multiset(s)
  {
    var s' := s[0 := s[p]][p := s[0]];
    forall i, j | 0 <= i < j < |s'| ensures InOrder(s'[i], s'[j]) {
      assert s'[i].display == s[i].display && s'[j].display == s[j].display;
      assert InOrder(s[i], s[j]);
    }
    assert Labels(s') == Labels(s);
  }

  lemma DropFirst(r: seq<DocsEntry>, s: seq<DocsEntry>)
    requires |r| > 0 && |s| > 0 && r[0] == s[0] && multiset(r) == multiset(s)
    ensures multiset(r[1..]) == multiset(s[1..])
  {
    assert r == [r[0]] + r[1..] && s == [s[0]] + s[1..];
    assert multiset(r) == multiset([r[0]]) + multiset(r[1..]);
    assert multiset(s) == multiset([s[0]]) + multiset(s[1..]);
    forall x ensures multiset(r[1..])[x] == multiset(s[1..])[x] {
      assert multiset(r)[x] == multiset(s)[x];
    }
  }

  lemma LabelsCons(s: seq<DocsEntry>)
    requires |s| > 0
    ensures Labels(s) == [s[0].display] + Labels(s[1..])
  {
  }

  /** Building twice from the same blob gives lists with the same labels in
      the same order, whichever ordering the sort picked for equal labels. */
  lemma TableLabelsDetermined(blob: DocsBlob, t1: Table, t2: Table, k: Category)
    requires IsTableOf(blob, t1) && IsTableOf(blob, t2)
    ensures Labels(t1.Get(k)) == Labels(t2.Get(k))
  {
    OrderedLabelsUnique(t1.Get(k), t2.Get(k));
  }

  // ---------------------------------------------------------------------
  // Selection

  /** Without a selected name the readme link is current, whatever the
      selected type. The current links are then those named `readme` and,
      when the name is the empty string, also those named by the empty
      string whose type is the selected one. */
  lemma ReadmeCurrentWithoutName(blob: DocsBlob, t: Table, selectedName: Option<string>, selectedType: Option<string>, e: DocsEntry)
    requires IsTableOf(blob, t)
    requires Falsy(selectedName)
    ensures Readme in t.documentation && IsSelected(Readme, selectedName, selectedType)
    ensures IsSelected(e, selectedName, selectedType) <==>
      e.name == "readme" || (selectedName == Some("") && e.name == "" && selectedType == Some(e.entryType))
  {
    ReadmeAlwaysListed(blob, t);
  }

  /** With a non-empty selected name, an entry is current exactly when its
      name and type are the selected ones; the readme gets no special case. */
  lemma CurrentByNameAndType(e: DocsEntry, name: string, selectedType: Option<string>)
    requires name != ""
    ensures IsSelected(e, Some(name), selectedType) <==> e.name == name && selectedType == Some(e.entryType)
  {
  }

  /** The list that holds the current entry is the active list, except for
      content items of type `playbook`, `docs` or the empty type. */
  lemma ActiveListHoldsCurrent(blob: DocsBlob, t: Table, k: Category, e: DocsEntry, name: string, ty: string)
    requires IsTableOf(blob, t)
    requires e in t.Get(k)
    requires name != "" && IsSelected(e, Some(name), Some(ty))
    ensures e.name == name && e.entryType == ty
    ensures GetSelectedCategory(Some(ty)) == k
      <==> k == Documentation || (ty != "" && ty != "docs" && ty != "playbook")
  {
    if k == Documentation {
      DocumentationLinks(blob, t, e);
    } else {
      ContentListMembers(blob, t, k, e);
    }
  }

  /** A playbook is listed under `playbooks`, but selecting it marks
      `plugins` as the active list. */
  lemma PlaybookNeverActive(blob: DocsBlob, t: Table, c: ContentItem)
    requires IsTableOf(blob, t)
    requires c in ContentsOf(blob) && c.contentType == "playbook"
    ensures ContentEntry(c) in t.playbooks
    ensures GetSelectedCategory(Some(c.contentType)) == Plugins
  {
    ContentItemListed(blob, t, c);
  }

  // ---------------------------------------------------------------------
  // Examples

  /** A permutation of two entries is one of their two orders. */
  lemma TwoEntries(s: seq<DocsEntry>, x: DocsEntry, y: DocsEntry)
    requires multiset(s) == multiset([x, y])
    ensures s == [x, y] || s == [y, x]
  {
    assert |s| == |multiset(s)| == 2;
    assert s[0] in multiset(s) && s[1] in multiset(s);
    assert multiset(s) == multiset{s[0], s[1]};
  }

  /** An ordered list of two entries that are out of order as given holds
      them the other way round. */
  lemma OrderedPair(s: seq<DocsEntry>, x: DocsEntry, y: DocsEntry)
    requires Ordered(s) && multiset(s) == multiset([x, y])
    requires !InOrder(x, y)
    ensures s == [y, x]
  {
    TwoEntries(s, x, y);
    assert InOrder(s[0], s[1]);
  }

  /** A blob with neither list gives the readme link alone. */
  lemma EmptyBlobTable(t: Table)
    requires IsTableOf(DocsBlob(None, None), t)
    ensures t == Table([Readme], [], [], [], [])
  {
    var blob := DocsBlob(None, None);
    assert t.Get(Documentation) == t.documentation && t.Get(Modules) == t.modules;
    assert t.Get(Roles) == t.roles && t.Get(Plugins) == t.plugins && t.Get(Playbooks) == t.playbooks;
    assert multiset(t.documentation) == multiset{Readme};
    assert |t.documentation| == 1 && t.documentation[0] in multiset(t.documentation);
    assert multiset(t.modules) == multiset{} && multiset(t.roles) == multiset{};
    assert multiset(t.plugins) == multiset{} && multiset(t.playbooks) == multiset{};
  }

  /** A file named `<first>_<second>.<extension>` is labelled
      `<First> <second>`. */
  lemma TwoWordLabel(first: string, second: string, extension: string)
    requires '.' !in first && '.' !in second && '_' !in first && '_' !in second
    ensures DisplayLabel(first + ['_'] + second + ['.'] + extension) == Capitalize(first + [' '] + second)
  {
    var stem := first + ['_'] + second;
    assert first + ['_'] + second + ['.'] + extension == stem + ['.'] + extension;
    SplitAfterSeparator(stem, extension, '.');
    SplitAfterSeparator(first, second, '_');
    SplitWithoutSeparator(second, '_');
    assert Join([first, second], " ") == first + [' '] + second;
  }

  /** A file named `getting_started.md` is labelled `Getting started`. The
      examples take their literals through parameters so that Dafny does not
      evaluate the string functions on constants in one large proof. */
  lemma GettingStartedLabel(fileName: string)
    requires fileName == "getting_started.md"
    ensures DisplayLabel(fileName) == "Getting started"
  {
    GettingStartedParts(fileName);
    TwoWordLabel("getting", "started", "md");
    CapitalizeGettingStarted("getting" + [' '] + "started");
  }

  lemma GettingStartedParts(fileName: string)
    requires fileName == "getting_started.md"
    ensures fileName == "getting" + ['_'] + "started" + ['.'] + "md"
  {
  }

  lemma CapitalizeGettingStarted(s: string)
    requires s == "getting" + [' '] + "started"
    ensures Capitalize(s) == "Getting started"
  {
  }

  /** With a single documentation file, the table's documentation list holds
      the readme and that file's link, in the order the comparator wants. */
  lemma SingleFileDocumentation(f: DocFile, t: Table)
    requires IsTableOf(DocsBlob(Some([f]), None), t)
    ensures Ordered(t.documentation)
    ensures multiset(t.documentation) == multiset([Readme, DocEntry(f)])
  {
    var blob := DocsBlob(Some([f]), None);
    assert DocEntries(FilesOf(blob)) == [DocEntry(f)];
    assert t.Get(Documentation) == t.documentation;
  }

  /** The readme is not necessarily first: `Getting started` sorts before it. */
  lemma ReadmeNotAlwaysFirst(fileName: string, t: Table)
    requires fileName == "getting_started.md"
    requires IsTableOf(DocsBlob(Some([DocFile(fileName)]), None), t)
    ensures t.documentation == [DocEntry(DocFile(fileName)), Readme]
  {
    var g := DocEntry(DocFile(fileName));
    SingleFileDocumentation(DocFile(fileName), t);
    assert !InOrder(Readme, g) by {
      GettingStartedLabel(fileName);
      assert Less(g.display, Readme.display);
      LessAsymmetric(g.display, Readme.display);
    }
    OrderedPair(t.documentation, Readme, g);
  }

  /** With two module items and nothing else, the `modules` list holds
      their two links in the order the comparator wants. */
  lemma TwoModules(a: ContentItem, b: ContentItem, t: Table)
    requires a.contentType == "module" && b.contentType == "module"
    requires IsTableOf(DocsBlob(None, Some([a, b])), t)
    ensures Ordered(t.modules)
    ensures multiset(t.modules) == multiset([ContentEntry(a), ContentEntry(b)])
  {
    var cs := [a, b];
    assert cs[..1][..0] == [] && cs[..|cs| - 1] == cs[..1];
    assert EntriesIn(cs[..1], Modules) == [ContentEntry(a)];
    assert EntriesIn(cs, Modules) == [ContentEntry(a), ContentEntry(b)];
    assert t.Get(Modules) == t.modules;
  }

  /** Items whose label starts with `_` go after the others. */
  lemma UnderscoreModuleLast(internal: ContentItem, apache: ContentItem, t: Table)
    requires internal == ContentItem("_internal", "module") && apache == ContentItem("apache", "module")
    requires IsTableOf(DocsBlob(None, Some([internal, apache])), t)
    ensures t.modules == [ContentEntry(apache), ContentEntry(internal)]
  {
    TwoModules(internal, apache, t);
    assert !InOrder(ContentEntry(internal), ContentEntry(apache));
    OrderedPair(t.modules, ContentEntry(internal), ContentEntry(apache));
  }
}
