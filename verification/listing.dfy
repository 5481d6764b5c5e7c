/**
 * The list-shaping pipeline of `fetchItems` (sort, type filter, search, root
 * duplicate removal) and the classification/duplicate loop of
 * `loadFolderFiles`.
 */
module Listing {
  import opened Wrappers
  import opened Strings
  import opened Seqs
  import opened Items

  datatype FilterType = All | Folders | Images | Pdfs | Models

  /** Where a listing belongs: the root of the projects tree, or one folder. */
  datatype Context = Root | InFolder(folderId: string)

  // ---- sort order ----

  /**
   * `localeCompare` compares collation keys: `a.localeCompare(b) <= 0` exactly
   * when the key of `a` is lexicographically at most the key of `b`. The keys
   * themselves (locale tables) are a parameter.
   */
  type Collation = string -> seq<int>

  /** The `fetchItems` comparator: folders before files, then the name order. */
  function ItemBefore(collate: Collation, a: Item, b: Item): bool {
    if a.Folder? != b.Folder? then a.Folder? else LexLeq(collate(a.name), collate(b.name))
  }

  function ItemOrder(collate: Collation): (Item, Item) -> bool {
    (a: Item, b: Item) => ItemBefore(collate, a, b)
  }

  /** The `loadFolderFiles` comparator: the name order alone. */
  function NameOrder(collate: Collation): (Item, Item) -> bool {
    (a: Item, b: Item) => LexLeq(collate(a.name), collate(b.name))
  }

  /** Both comparators are total and transitive, as `Array.prototype.sort` needs. */
  lemma OrdersArePreorders(collate: Collation)
    ensures TotalPreorder(ItemOrder(collate))
    ensures TotalPreorder(NameOrder(collate))
  {
    var leq := ItemOrder(collate);
    forall x: Item, y: Item ensures leq(x, y) || leq(y, x) {
      if x.Folder? == y.Folder? {
        LexTotal(collate(x.name), collate(y.name));
      }
    }
    forall x: Item, y: Item, z: Item | leq(x, y) && leq(y, z) ensures leq(x, z) {
      if x.Folder? == y.Folder? && y.Folder? == z.Folder? {
        LexTrans(collate(x.name), collate(y.name), collate(z.name));
      }
    }
    var byName := NameOrder(collate);
    forall x: Item, y: Item ensures byName(x, y) || byName(y, x) {
      LexTotal(collate(x.name), collate(y.name));
    }
    forall x: Item, y: Item, z: Item | byName(x, y) && byName(y, z) ensures byName(x, z) {
      LexTrans(collate(x.name), collate(y.name), collate(z.name));
    }
  }

  /** No file stands before a folder. */
  predicate FoldersFirst(s: seq<Item>) {
    forall i, j | 0 <= i < j < |s| :: !(s[i].File? && s[j].Folder?)
  }

  lemma SortedFoldersFirst(s: seq<Item>, collate: Collation)
    requires Sorted(s, ItemOrder(collate))
    ensures FoldersFirst(s)
  {
    forall i, j | 0 <= i < j < |s| ensures !(s[i].File? && s[j].Folder?) {
      assert ItemBefore(collate, s[i], s[j]);
    }
  }

  /** The `items.sort(...)` step of `fetchItems`: a permutation, ordered, folders first. */
  function SortItems(items: seq<Item>, collate: Collation): (r: seq<Item>)
    ensures multiset(r) == multiset(items)
    ensures Sorted(r, ItemOrder(collate))
    ensures FoldersFirst(r)
  {
    OrdersArePreorders(collate);
    var r := SortBy(items, ItemOrder(collate));
    SortedFoldersFirst(r, collate);
    r
  }

  // ---- type filter ----

  /** What each filter button keeps. */
  predicate KeepsType(f: FilterType, it: Item) {
    match f
    case All => true
    case Folders => it.Folder?
    case Images => it.File? && it.fileType != "" && StartsWith(it.fileType, "image/")
    case Pdfs => it.File? && it.fileType != "" && Contains(ToLower(it.fileType), "pdf")
    case Models => IsModelItem(it)
  }

  function TypePredicate(f: FilterType): Item -> bool {
    (it: Item) => KeepsType(f, it)
  }

  function TypeFilter(items: seq<Item>, f: FilterType): (r: seq<Item>)
    ensures forall i | 0 <= i < |r| :: KeepsType(f, r[i])
    ensures forall x | x in items && KeepsType(f, x) :: x in r
    ensures f == All ==> r == items
  {
    var r := Filter(items, TypePredicate(f));
    FilterMembers(items, TypePredicate(f));
    assert f == All ==> r == items by {
      if f == All { FilterAll(items, TypePredicate(f)); }
    }
    r
  }

  // ---- search ----

  /** At the root the query matches folder names; inside a folder, file names. */
  predicate SearchHit(query: string, ctx: Context, it: Item) {
    (if ctx.Root? then it.Folder? else it.File?) && Contains(ToLower(it.name), query)
  }

  function SearchPredicate(query: string, ctx: Context): Item -> bool {
    (it: Item) => SearchHit(query, ctx, it)
  }

  /** The search step; `query` is the already normalized search box text. */
  function Search(items: seq<Item>, query: string, ctx: Context): (r: seq<Item>)
    ensures query == "" ==> r == items
    ensures query != "" ==> forall i | 0 <= i < |r| :: SearchHit(query, ctx, r[i])
    ensures query != "" ==> forall x | x in items && SearchHit(query, ctx, x) :: x in r
  {
    if query == "" then
      items
    else
      FilterMembers(items, SearchPredicate(query, ctx));
      Filter(items, SearchPredicate(query, ctx))
  }

  /** Both filter steps only leave items out, keeping the order of the rest. */
  lemma FilterStepsAreSubseqs(items: seq<Item>, f: FilterType, query: string, ctx: Context)
    ensures IsSubseq(TypeFilter(items, f), items)
    ensures IsSubseq(Search(items, query, ctx), items)
  {
    FilterIsSubseq(items, TypePredicate(f));
    if query == "" {
      SubseqRefl(items);
    } else {
      FilterIsSubseq(items, SearchPredicate(query, ctx));
    }
  }

  /** The type filter and the search commute, and together keep what both predicates accept. */
  lemma FilterSearchCommute(items: seq<Item>, f: FilterType, query: string, ctx: Context)
    ensures Search(TypeFilter(items, f), query, ctx) == TypeFilter(Search(items, query, ctx), f)
    ensures query != "" ==>
      Search(TypeFilter(items, f), query, ctx)
      == Filter(items, Both(TypePredicate(f), SearchPredicate(query, ctx)))
  {
    if query != "" {
      FilterFilter(items, TypePredicate(f), SearchPredicate(query, ctx));
    }
  }

  // ---- duplicate folders at the root ----

  /** A folder's duplicate key: its display name trimmed and lower-cased. Files have none. */
  function FolderKeyOf(it: Item): Option<string> {
    if it.Folder? then Some(Normalize(it.name)) else None
  }

  function FolderKey(): Item -> Option<string> {
    (it: Item) => FolderKeyOf(it)
  }

  /** No two folders share a key. */
  predicate DistinctFolderKeys(s: seq<Item>) {
    DistinctSomeKeys(s, FolderKey())
  }

  /** Root duplicate removal: the first folder of each key stays, later ones go. */
  function RootDedup(s: seq<Item>): (r: seq<Item>)
    ensures DistinctFolderKeys(r)
  {
    DedupBy(s, FolderKey(), {})
  }

  /**
   * What the root duplicate removal keeps: every file, in order; for each
   * folder key of the input, exactly its first folder.
   */
  lemma RootDedupKeeps(s: seq<Item>)
    ensures IsSubseq(RootDedup(s), s)
    ensures Filter(RootDedup(s), Unkeyed(FolderKey())) == Filter(s, Unkeyed(FolderKey()))
    ensures KeySet(RootDedup(s), FolderKey()) == KeySet(s, FolderKey())
    ensures AreFirstsOf(RootDedup(s), s, FolderKey())
  {
    DedupIsSubseq(s, FolderKey(), {});
    DedupKeepsUnkeyed(s, FolderKey(), {});
    DedupKeepsKeys(s, FolderKey(), {});
    DedupKeepsFirst(s, FolderKey(), {});
  }

  /** Removing root duplicates twice is removing them once. */
  lemma RootDedupIdempotent(s: seq<Item>)
    ensures RootDedup(RootDedup(s)) == RootDedup(s)
  {
    DedupIdempotent(s, FolderKey());
  }

  // ---- the whole pipeline ----

  /**
   * Sort, type filter, search, and at the root duplicate removal: the list a
   * fetch renders, from the cache or from a fresh listing.
   */
  function Shape(items: seq<Item>, f: FilterType, query: string, ctx: Context,
                 collate: Collation): (r: seq<Item>)
    ensures Sorted(r, ItemOrder(collate)) && FoldersFirst(r)
    ensures forall i | 0 <= i < |r| :: KeepsType(f, r[i])
    ensures query != "" ==> forall i | 0 <= i < |r| :: SearchHit(query, ctx, r[i])
    ensures ctx.Root? ==> DistinctFolderKeys(r)
  {
    var searched := Search(TypeFilter(SortItems(items, collate), f), query, ctx);
    var r := if ctx.Root? then RootDedup(searched) else searched;
    ShapeFacts(items, f, query, ctx, collate);
    r
  }

  lemma ShapeFacts(items: seq<Item>, f: FilterType, query: string, ctx: Context,
                   collate: Collation)
    ensures
      var searched := Search(TypeFilter(SortItems(items, collate), f), query, ctx);
      var r := if ctx.Root? then RootDedup(searched) else searched;
      && Sorted(r, ItemOrder(collate)) && FoldersFirst(r)
      && (forall i | 0 <= i < |r| :: KeepsType(f, r[i]))
      && (query != "" ==> forall i | 0 <= i < |r| :: SearchHit(query, ctx, r[i]))
  {
    var sorted := SortItems(items, collate);
    var searched := Search(TypeFilter(sorted, f), query, ctx);
    var r := if ctx.Root? then RootDedup(searched) else searched;
    ShapeIsSubseq(items, f, query, ctx, collate);
    SubseqSorted(r, sorted, ItemOrder(collate));
    SortedFoldersFirst(r, collate);
    FilteredStaysFiltered(sorted, f, query, ctx, r);
  }

  /** A subsequence of the filtered list still passes both filters. */
  lemma FilteredStaysFiltered(sorted: seq<Item>, f: FilterType, query: string, ctx: Context, r: seq<Item>)
    requires IsSubseq(r, Search(TypeFilter(sorted, f), query, ctx))
    ensures forall i | 0 <= i < |r| :: KeepsType(f, r[i])
    ensures query != "" ==> forall i | 0 <= i < |r| :: SearchHit(query, ctx, r[i])
  {
    var typed := TypeFilter(sorted, f);
    var searched := Search(typed, query, ctx);
    FilterStepsAreSubseqs(typed, f, query, ctx);
    SubseqElems(r, searched);
    SubseqElems(searched, typed);
    forall i | 0 <= i < |r| ensures KeepsType(f, r[i]) && (query != "" ==> SearchHit(query, ctx, r[i])) {
      assert r[i] in searched;
      var j :| 0 <= j < |searched| && searched[j] == r[i];
      var k :| 0 <= k < |typed| && typed[k] == r[i];
    }
  }

  /** What `Shape` renders is the sorted input with items left out, never reordered. */
  lemma ShapeIsSubseq(items: seq<Item>, f: FilterType, query: string, ctx: Context,
                      collate: Collation)
    ensures
      var sorted := SortItems(items, collate);
      var searched := Search(TypeFilter(sorted, f), query, ctx);
      var r := if ctx.Root? then RootDedup(searched) else searched;
      IsSubseq(r, sorted) && IsSubseq(r, searched)
  {
    var sorted := SortItems(items, collate);
    var typed := TypeFilter(sorted, f);
    var searched := Search(typed, query, ctx);
    FilterStepsAreSubseqs(sorted, f, query, ctx);
    FilterStepsAreSubseqs(typed, f, query, ctx);
    SubseqTrans(searched, typed, sorted);
    if ctx.Root? {
      RootDedupKeeps(searched);
      SubseqTrans(RootDedup(searched), searched, sorted);
    } else {
      SubseqRefl(searched);
    }
  }

  /**
   * Nothing that passes both filters is lost: inside a folder, and for files
   * at the root, the item itself is drawn; a folder at the root may give way
   * to an earlier folder of the same key, but its key is drawn.
   */
  lemma ShapeComplete(items: seq<Item>, f: FilterType, query: string, ctx: Context, collate: Collation, x: Item)
    requires x in items && KeepsType(f, x) && (query != "" ==> SearchHit(query, ctx, x))
    ensures var r := Shape(items, f, query, ctx, collate);
      && (ctx.InFolder? || x.File? ==> x in r)
      && (ctx.Root? && x.Folder? ==> Normalize(x.name) in KeySet(r, FolderKey()))
  {
    var searched := Search(TypeFilter(SortItems(items, collate), f), query, ctx);
    SearchedKeeps(items, f, query, ctx, collate, x);
    if ctx.Root? {
      RootDedupKeeps(searched);
      if x.File? {
        KeptUnkeyed(searched, x);
      } else {
        FolderKeyed(searched, x);
      }
    }
  }

  /** An item that passes the type filter and the search is still there before duplicate removal. */
  lemma SearchedKeeps(items: seq<Item>, f: FilterType, query: string, ctx: Context, collate: Collation, x: Item)
    requires x in items && KeepsType(f, x) && (query != "" ==> SearchHit(query, ctx, x))
    ensures x in Search(TypeFilter(SortItems(items, collate), f), query, ctx)
  {
    var sorted := SortItems(items, collate);
    assert x in multiset(items);
    assert x in sorted by { assert x in multiset(sorted); }
  }

  /** A listed folder contributes its normalized name to the folder keys. */
  lemma FolderKeyed(s: seq<Item>, x: Item)
    requires x in s && x.Folder?
    ensures Normalize(x.name) in KeySet(s, FolderKey())
  {
    var j :| 0 <= j < |s| && s[j] == x;
    assert FolderKey()(s[j]) == Some(Normalize(x.name));
  }

  /** A file survives root duplicate removal. */
  lemma KeptUnkeyed(s: seq<Item>, x: Item)
    requires x in s && x.File?
    requires Filter(RootDedup(s), Unkeyed(FolderKey())) == Filter(s, Unkeyed(FolderKey()))
    ensures x in RootDedup(s)
  {
    FilterMembers(s, Unkeyed(FolderKey()));
    FilterMembers(RootDedup(s), Unkeyed(FolderKey()));
    assert x in Filter(s, Unkeyed(FolderKey()));
  }

  /** The extra duplicate removal in `renderItems` changes nothing at the root. */
  lemma RenderDedupIsNoop(items: seq<Item>, f: FilterType, query: string, collate: Collation)
    ensures RootDedup(Shape(items, f, query, Root, collate)) == Shape(items, f, query, Root, collate)
  {
    DedupOfDistinct(Shape(items, f, query, Root, collate), FolderKey(), {});
  }

  // ---- root listing ----

  /** One storage prefix under `projects/`, with the `name` its marker holds, if any. */
  datatype PrefixEntry = PrefixEntry(prefix: string, markerName: Option<string>)

  /** A folder shows its marker name when it has a non-empty one, its storage id otherwise. */
  function DisplayName(p: PrefixEntry): string {
    if p.markerName.Some? && p.markerName.value != "" then p.markerName.value else p.prefix
  }

  /**
   * The root listing: one folder per storage prefix, in order, its id the
   * prefix and its name the marker's `name` when that is non-empty.
   */
  function RootItems(prefixes: seq<PrefixEntry>): (r: seq<Item>)
    ensures |r| == |prefixes|
    ensures forall i | 0 <= i < |r| :: r[i].Folder? && r[i].id == prefixes[i].prefix
    ensures forall i | 0 <= i < |r| && prefixes[i].markerName.Some? && prefixes[i].markerName.value != "" ::
      r[i].name == prefixes[i].markerName.value
    ensures forall i | 0 <= i < |r| && (prefixes[i].markerName.None? || prefixes[i].markerName.value == "") ::
      r[i].name == prefixes[i].prefix
  {
    seq(|prefixes|, i requires 0 <= i < |prefixes| => Folder(prefixes[i].prefix, DisplayName(prefixes[i])))
  }

  // ---- files of one folder ----

  function FilePathOf(folderId: string, name: string): string {
    StorageRoot + "/" + folderId + "/" + name
  }

  /** The item `loadFolderFiles` builds for one listed object. */
  function ListedFile(folderId: string, name: string): Item {
    File(folderId + "/" + name, name, InferFileType(name), FilePathOf(folderId, name))
  }

  /** The duplicate key of a file: its storage path lower-cased. */
  function PathKey(it: Item): string {
    if it.File? then ToLower(it.filePath) else ""
  }

  function NotMarker(): string -> bool {
    (name: string) => name != MarkerName
  }

  /** The duplicate key of a listed object name inside folder `folderId`. */
  function NameKey(folderId: string): string -> Option<string> {
    (name: string) => Some(ToLower(FilePathOf(folderId, name)))
  }

  function MakeFile(folderId: string): string -> Item {
    (name: string) => ListedFile(folderId, name)
  }

  /**
   * The classification loop of `loadFolderFiles`, before the sort: skip the
   * marker, skip a name whose lower-cased path was seen, build a file item.
   */
  function CollectFiles(folderId: string, names: seq<string>): seq<Item> {
    FilterDedupMap(names, NotMarker(), NameKey(folderId), MakeFile(folderId), {})
  }

  /** The names the loop keeps: not the marker, first of each lower-cased path. */
  lemma KeptNames(folderId: string, names: seq<string>)
    ensures
      var kept := DedupBy(Filter(names, NotMarker()), NameKey(folderId), {});
      && (forall i | 0 <= i < |kept| :: kept[i] in names && kept[i] != MarkerName)
      && DistinctSomeKeys(kept, NameKey(folderId))
      && CollectFiles(folderId, names) == Map(kept, MakeFile(folderId))
  {
    var listed := Filter(names, NotMarker());
    var kept := DedupBy(listed, NameKey(folderId), {});
    FilterIsSubseq(names, NotMarker());
    DedupIsSubseq(listed, NameKey(folderId), {});
    SubseqElems(kept, listed);
    SubseqElems(listed, names);
  }

  /** Each collected item is the file built from a listed name other than the marker; no two share a path key. */
  lemma CollectFilesShape(folderId: string, names: seq<string>)
    ensures var r := CollectFiles(folderId, names);
      && (forall i | 0 <= i < |r| ::
            r[i].File? && r[i].name in names && r[i].name != MarkerName && r[i] == ListedFile(folderId, r[i].name))
      && DistinctKeys(r, PathKey)
  {
    var kept := DedupBy(Filter(names, NotMarker()), NameKey(folderId), {});
    KeptNames(folderId, names);
    MappedFiles(folderId, kept);
    DistinctPathKeys(folderId, kept);
  }

  /** Names with pairwise different lower-cased paths give files with pairwise different path keys. */
  lemma DistinctPathKeys(folderId: string, kept: seq<string>)
    requires DistinctSomeKeys(kept, NameKey(folderId))
    ensures DistinctKeys(Map(kept, MakeFile(folderId)), PathKey)
  {
    MappedFiles(folderId, kept);
    var r := Map(kept, MakeFile(folderId));
    forall i, j | 0 <= i < j < |r| ensures PathKey(r[i]) != PathKey(r[j]) {
      assert NameKey(folderId)(kept[i]) != NameKey(folderId)(kept[j]);
    }
  }

  /** The files built from `kept`, one per name and in order, each keyed by its lower-cased path. */
  lemma MappedFiles(folderId: string, kept: seq<string>)
    ensures var r := Map(kept, MakeFile(folderId));
      forall i | 0 <= i < |r| :: r[i] == ListedFile(folderId, kept[i]) && PathKey(r[i]) == ToLower(FilePathOf(folderId, kept[i]))
  {
    forall i | 0 <= i < |kept| ensures Map(kept, MakeFile(folderId))[i] == ListedFile(folderId, kept[i]) {
      MapAt(kept, MakeFile(folderId), i);
    }
  }

  function ListedKeys(folderId: string, names: seq<string>): set<string> {
    set n | n in names && n != MarkerName :: ToLower(FilePathOf(folderId, n))
  }

  function ItemKeys(items: seq<Item>): set<string> {
    set i | 0 <= i < |items| :: PathKey(items[i])
  }

  /** Every listed object other than the marker is represented, and nothing else is. */
  lemma CollectCoversListing(folderId: string, names: seq<string>)
    ensures ItemKeys(CollectFiles(folderId, names)) == ListedKeys(folderId, names)
  {
    var r := CollectFiles(folderId, names);
    forall k | k in ItemKeys(r) ensures k in ListedKeys(folderId, names) {
      CollectedKeyIsListed(folderId, names, k);
    }
    forall k | k in ListedKeys(folderId, names) ensures k in ItemKeys(r) {
      ListedKeyIsCollected(folderId, names, k);
    }
  }

  lemma CollectedKeyIsListed(folderId: string, names: seq<string>, k: string)
    requires k in ItemKeys(CollectFiles(folderId, names))
    ensures k in ListedKeys(folderId, names)
  {
    var kept := DedupBy(Filter(names, NotMarker()), NameKey(folderId), {});
    var r := CollectFiles(folderId, names);
    KeptNames(folderId, names);
    var i :| 0 <= i < |r| && PathKey(r[i]) == k;
    MapAt(kept, MakeFile(folderId), i);
    assert kept[i] in names && kept[i] != MarkerName;
    assert k == ToLower(FilePathOf(folderId, kept[i]));
  }

  lemma ListedKeyIsCollected(folderId: string, names: seq<string>, k: string)
    requires k in ListedKeys(folderId, names)
    ensures k in ItemKeys(CollectFiles(folderId, names))
  {
    var kept := DedupBy(Filter(names, NotMarker()), NameKey(folderId), {});
    var r := CollectFiles(folderId, names);
    KeptNames(folderId, names);
    ListedKeyIsKept(folderId, names, k);
    var i :| 0 <= i < |kept| && NameKey(folderId)(kept[i]).Some? && NameKey(folderId)(kept[i]).value == k;
    MapAt(kept, MakeFile(folderId), i);
    assert PathKey(r[i]) == k;
  }

  lemma ListedKeyIsKept(folderId: string, names: seq<string>, k: string)
    requires k in ListedKeys(folderId, names)
    ensures k in KeySet(DedupBy(Filter(names, NotMarker()), NameKey(folderId), {}), NameKey(folderId))
  {
    var listed := Filter(names, NotMarker());
    DedupKeepsKeys(listed, NameKey(folderId), {});
    FilterMembers(names, NotMarker());
    var n :| n in names && n != MarkerName && ToLower(FilePathOf(folderId, n)) == k;
    var m :| 0 <= m < |listed| && listed[m] == n;
    assert NameKey(folderId)(listed[m]).value == k;
  }

  /**
   * `loadFolderFiles` without its storage call and cache write: the classified,
   * de-duplicated files, sorted by name.
   */
  function LoadFolderFiles(folderId: string, names: seq<string>, collate: Collation): (r: seq<Item>)
    ensures forall i | 0 <= i < |r| ::
      r[i].File? && r[i].name != MarkerName && r[i].name in names && r[i] == ListedFile(folderId, r[i].name)
    ensures DistinctKeys(r, PathKey)
    ensures Sorted(r, NameOrder(collate))
    ensures ItemKeys(r) == ListedKeys(folderId, names)
    ensures multiset(r) == multiset(CollectFiles(folderId, names))
    ensures forall i | 0 <= i < |r| ::
      FirstWithKey(Filter(names, NotMarker()), NameKey(folderId), PathKey(r[i])) == Some(r[i].name)
  {
    var collected := CollectFiles(folderId, names);
    OrdersArePreorders(collate);
    CollectFilesShape(folderId, names);
    CollectCoversListing(folderId, names);
    CollectedAreFirsts(folderId, names);
    var r := SortBy(collected, NameOrder(collate));
    SortKeepsDistinctKeys(collected, NameOrder(collate), PathKey);
    SortKeepsItemKeys(collected, NameOrder(collate));
    FirstsSurviveSort(folderId, names, collected, r);
    r
  }

  /**
   * Of names whose paths differ only in letter case, the loop keeps the one
   * listed first: each collected file's name is the first listed name (other
   * than the marker) with that file's lower-cased path.
   */
  lemma CollectedAreFirsts(folderId: string, names: seq<string>)
    ensures var c := CollectFiles(folderId, names);
      forall i | 0 <= i < |c| ::
        FirstWithKey(Filter(names, NotMarker()), NameKey(folderId), PathKey(c[i])) == Some(c[i].name)
  {
    var listed := Filter(names, NotMarker());
    var kept := DedupBy(listed, NameKey(folderId), {});
    KeptNames(folderId, names);
    DedupKeepsFirst(listed, NameKey(folderId), {});
    MappedFiles(folderId, kept);
    var c := CollectFiles(folderId, names);
    forall i | 0 <= i < |c| ensures FirstWithKey(listed, NameKey(folderId), PathKey(c[i])) == Some(c[i].name) {
      assert c[i] == ListedFile(folderId, kept[i]);
      assert NameKey(folderId)(kept[i]).value == PathKey(c[i]);
    }
  }

  lemma FirstsSurviveSort(folderId: string, names: seq<string>, collected: seq<Item>, r: seq<Item>)
    requires forall i | 0 <= i < |collected| ::
      FirstWithKey(Filter(names, NotMarker()), NameKey(folderId), PathKey(collected[i])) == Some(collected[i].name)
    requires forall i | 0 <= i < |r| :: r[i] in collected
    ensures forall i | 0 <= i < |r| ::
      FirstWithKey(Filter(names, NotMarker()), NameKey(folderId), PathKey(r[i])) == Some(r[i].name)
  {
    forall i | 0 <= i < |r|
      ensures FirstWithKey(Filter(names, NotMarker()), NameKey(folderId), PathKey(r[i])) == Some(r[i].name)
    {
      assert r[i] in collected;
      var j :| 0 <= j < |collected| && collected[j] == r[i];
    }
  }

  /** Sorting moves items, so each is one of the collected ones and the key set stays. */
  lemma SortKeepsItemKeys(collected: seq<Item>, leq: (Item, Item) -> bool)
    requires TotalPreorder(leq)
    ensures var r := SortBy(collected, leq);
      (forall i | 0 <= i < |r| :: r[i] in collected) && ItemKeys(r) == ItemKeys(collected)
  {
    var r := SortBy(collected, leq);
    forall i | 0 <= i < |r| ensures r[i] in collected {
      assert r[i] in multiset(r);
    }
    forall k | k in ItemKeys(r) ensures k in ItemKeys(collected) {
      var i :| 0 <= i < |r| && PathKey(r[i]) == k;
      assert r[i] in collected;
      var j :| 0 <= j < |collected| && collected[j] == r[i];
    }
    forall k | k in ItemKeys(collected) ensures k in ItemKeys(r) {
      var i :| 0 <= i < |collected| && PathKey(collected[i]) == k;
      assert collected[i] in multiset(r);
      var j :| 0 <= j < |r| && r[j] == collected[i];
    }
  }
}
