/**
 * The dashboard's state and how each user action, storage answer and timer
 * reading changes it: navigation over `folderPath`, the fetch token that
 * keeps superseded fetches from rendering, the two listing caches, the admin
 * flag, and the cache invalidation after deletes and uploads.
 */
module Session {
  import opened Wrappers
  import opened Strings
  import opened Items
  import opened Listing
  import opened Cache
  import opened Admin
  import opened Upload

  /** One breadcrumb: a folder id (`null` for the root) and its label. */
  datatype Crumb = Crumb(id: Option<string>, name: string)

  const RootCrumb: Crumb := Crumb(None, "Raiz")

  datatype ViewMode = Grid | ListView

  /**
   * The module-level variables of the dashboard. `display` is the list the
   * last render drew (what `renderItems` was called with); `adminPrompt` is
   * whether the admin modal is open; `deleting` holds the items whose delete
   * passed the gate and whose storage calls have not yet ended.
   */
  datatype State = State(
    folderPath: seq<Crumb>,
    currentFolder: Option<string>,
    viewMode: ViewMode,
    filter: FilterType,
    query: string,
    token: nat,
    rootCache: Option<Entry>,
    filesCache: FolderCache,
    isAdmin: bool,
    adminPrompt: bool,
    display: seq<Item>,
    deleting: multiset<Item>)

  const Initial: State := State([RootCrumb], None, Grid, All, "", 0, None, map[], false, false, [], multiset{})

  /** The breadcrumb trail starts at the root and ends at the folder being shown. */
  predicate WellFormed(s: State) {
    |s.folderPath| >= 1 && s.folderPath[0] == RootCrumb && s.currentFolder == s.folderPath[|s.folderPath| - 1].id
  }

  /** `!currentFolder`: `null` and the empty id both mean the root. */
  function ContextOf(s: State): Context {
    if FolderOpen(s.currentFolder) then InFolder(s.currentFolder.value) else Root
  }

  /** Whether a `currentFolder` value names a folder: neither `null` nor the empty string. */
  predicate FolderOpen(folder: Option<string>) {
    folder.Some? && folder.value != ""
  }

  /** What the code cannot compute itself: collation keys, the SHA-256 digest, the configured admin secret. */
  datatype Env = Env(collate: Collation, digest: string -> Option<string>, secret: string)

  /** A fetch in flight: the token it took and the context it listed. */
  datatype Fetch = Fetch(token: nat, ctx: Context)

  /** What the storage calls of a fetch answered: root prefixes with their markers, or a folder's object names. */
  datatype StorageListing = StorageListing(prefixes: seq<PrefixEntry>, names: seq<string>)

  /** Navigation, search, filter and sign-in events: they change what is listed and how. */
  datatype ViewEvent =
    | SignedIn
    | SignedOut
    | SearchTyped(text: string)
    | FilterChosen(choice: FilterType)
    | ViewToggled
    | CrumbClicked(index: nat)
    | BackClicked

  /** Events behind the admin flag. */
  datatype AdminEvent =
    | AdminClicked
    | AdminConfirmed(input: string)
      /** The modal's cancel button. */
    | AdminCancelled
      /** The delete button: the gate is tested before any storage call. */
    | DeleteClicked(item: Item)
      /** The storage deletes of an earlier allowed click have ended (failures are caught). */
    | DeleteFinished(item: Item)

  /** Completed storage listings. */
  datatype LoadEvent =
      /** `listing` is `None` when the storage call rejected. */
    | FetchCompleted(fetch: Fetch, listing: Option<StorageListing>)
      /** An inline folder panel loaded the folder's files (`None`: the listing rejected). */
    | PanelOpened(folderId: string, names: Option<seq<string>>)

  /** Uploads and folder edits, each reported when its storage writes have ended. */
  datatype EditEvent =
      /**
       * The file input or a drop, aimed at the open folder: `start` is the
       * folder that was open when the upload began, which the handler tests
       * and captures before its first `await`.
       */
    | UploadHere(start: Option<string>, files: seq<FileUpload>)
      /** A folder panel's upload button, aimed at its folder id (`null` possible). */
    | UploadTo(target: Option<string>, files: seq<FileUpload>)
      /** `ok`: writing the marker succeeded. */
    | FolderRenamed(currentName: string, input: string, ok: bool)
      /** `ok`: a file was picked and its upload finished. */
    | CoverSet(ok: bool)
      /** `present`: the marker was already there; `ok`: writing it succeeded. */
    | FolderCreated(input: string, present: bool, ok: bool)

  datatype Event = View(view: ViewEvent) | Admin(admin: AdminEvent) | Load(load: LoadEvent) | Edit(edit: EditEvent)

  /** An event and the `Date.now()` reading it sees. */
  datatype Timed = Timed(event: Event, now: int)

  // ---- fetching ----

  /** The cached items a fetch may render at once for context `ctx`, if fresh. */
  function CachedFor(s: State, ctx: Context, now: int): Option<seq<Item>> {
    match ctx
    case Root => FreshItems(s.rootCache, now)
    case InFolder(id) => FreshItems(Lookup(s.filesCache, Some(id)), now)
  }

  /** What the optimistic render draws: the shaped cached listing if it is fresh, nothing otherwise. */
  function Optimistic(s: State, now: int, env: Env): (r: seq<Item>)
    ensures CachedFor(s, ContextOf(s), now).None? ==> r == []
  {
    var ctx := ContextOf(s);
    var cached := CachedFor(s, ctx, now);
    if cached.Some? then Shape(cached.value, s.filter, s.query, ctx, env.collate) else []
  }

  /**
   * The synchronous start of `fetchItems`: take the next token, clear the
   * list, and draw the fresh cached listing of the context if there is one.
   */
  function BeginFetch(s: State, now: int, env: Env): (r: State)
    ensures r.token == s.token + 1
    ensures r == s.(token := r.token, display := r.display)
  {
    s.(token := s.token + 1, display := Optimistic(s, now, env))
  }

  /** The fetch that `BeginFetch` just started. */
  function LatestFetch(s: State): Fetch {
    Fetch(s.token, ContextOf(s))
  }

  /** The items a completed fetch lists, before sorting and filtering. */
  function FetchedItems(ctx: Context, listing: StorageListing, collate: Collation): seq<Item> {
    match ctx
    case Root => RootItems(listing.prefixes)
    case InFolder(id) => LoadFolderFiles(id, listing.names, collate)
  }

  /** What the fresh render draws: the listing shaped for the view of `s`. */
  function Rendered(s: State, items: seq<Item>, env: Env): seq<Item> {
    Shape(items, s.filter, s.query, ContextOf(s), env.collate)
  }

  /**
   * The rest of `fetchItems` after its storage call. The cache is written
   * first, whatever the token; a folder listing lands under its own id
   * (inside `loadFolderFiles`) and again under the folder open now. Only the
   * fetch holding the latest token renders.
   */
  function CompleteFetch(s: State, f: Fetch, listing: Option<StorageListing>, now: int, env: Env): (r: State)
    ensures r == s.(rootCache := r.rootCache, filesCache := r.filesCache, display := r.display)
    ensures f.token != s.token ==> r.display == s.display
  {
    if listing.None? then s
    else
      var items := FetchedItems(f.ctx, listing.value, env.collate);
      var cached :=
        match f.ctx
        case Root => s.(rootCache := Some(Entry(now, items)))
        case InFolder(id) =>
          s.(filesCache := Put(Put(s.filesCache, Some(id), Entry(now, items)), s.currentFolder, Entry(now, items)));
      if f.token == s.token then cached.(display := Rendered(s, items, env))
      else cached
  }

  // ---- mutations ----

  /** `item.id.split('/')[0]`: the id up to its first '/'. */
  function FirstSegment(id: string): (r: string)
    ensures '/' !in r
    ensures |r| <= |id| && id[..|r|] == r
    ensures |r| < |id| ==> id[|r|] == '/'
  {
    if id == [] || id[0] == '/' then [] else [id[0]] + FirstSegment(id[1..])
  }

  /** The folder whose cached files a deleted item invalidates, if any. */
  function DeletedFolderKey(item: Item): Option<string> {
    if item.Folder? then Some(item.id)
    else
      var id := Trim(FirstSegment(item.id));
      if id != "" then Some(id) else None
  }

  /** `deleteItem` is refused unless a secret is configured and the admin flag is up. */
  predicate DeleteAllowed(s: State, env: Env) {
    env.secret != "" && s.isAdmin
  }

  function AfterDelete(s: State, item: Item): State {
    var key := DeletedFolderKey(item);
    s.(filesCache := if key.Some? then Invalidate(s.filesCache, key) else s.filesCache,
       rootCache := None, deleting := s.deleting - multiset{item})
  }

  /** Opening a folder panel runs `loadFolderFiles`, which caches the folder's files under its id. */
  function PanelLoaded(s: State, folderId: string, names: seq<string>, now: int, env: Env): (r: State)
    ensures r == s.(filesCache := r.filesCache)
    ensures Lookup(r.filesCache, Some(folderId)) == Some(Entry(now, LoadFolderFiles(folderId, names, env.collate)))
    ensures forall k | k != Some(folderId) :: Lookup(r.filesCache, k) == Lookup(s.filesCache, k)
  {
    s.(filesCache := Put(s.filesCache, Some(folderId), Entry(now, LoadFolderFiles(folderId, names, env.collate))))
  }

  /** `folderPath.slice(0, idx + 1)`, then the folder at its end. */
  function GoToCrumb(s: State, index: nat): (r: State)
    requires WellFormed(s)
    ensures WellFormed(r)
    ensures |r.folderPath| == if index + 1 < |s.folderPath| then index + 1 else |s.folderPath|
    ensures r.folderPath == s.folderPath[..|r.folderPath|]
  {
    var n := if index + 1 < |s.folderPath| then index + 1 else |s.folderPath|;
    var path := s.folderPath[..n];
    s.(folderPath := path, currentFolder := path[n - 1].id)
  }

  // ---- the transition function ----

  /** Whether a view event starts a fetch. */
  predicate ViewStartsFetch(s: State, v: ViewEvent) {
    !v.SignedOut? && (v.BackClicked? ==> |s.folderPath| > 1)
  }

  /** The back button: below the root, drop the last crumb and open the one before it. */
  function GoBack(s: State): (r: State)
    requires WellFormed(s)
    ensures WellFormed(r)
    ensures |s.folderPath| > 1 ==>
      r == s.(folderPath := s.folderPath[..|s.folderPath| - 1], currentFolder := s.folderPath[|s.folderPath| - 2].id)
    ensures |s.folderPath| <= 1 ==> r == s
  {
    if |s.folderPath| > 1 then
      var path := s.folderPath[..|s.folderPath| - 1];
      assert path[0] == RootCrumb;
      s.(folderPath := path, currentFolder := path[|path| - 1].id)
    else s
  }

  /**
   * What each view event sets: the typed search the normalized query, a
   * filter button the filter, the toggle the other view mode, a crumb click
   * the trail cut after that crumb, and the back button below the root the
   * trail without its last crumb; sign-in, sign-out and the back button at
   * the root change nothing.
   */
  predicate NavigationSets(s: State, v: ViewEvent, r: State)
    requires WellFormed(s)
  {
    && (v.SearchTyped? ==> r == s.(query := Normalize(v.text)))
    && (v.FilterChosen? ==> r == s.(filter := v.choice))
    && (v.ViewToggled? ==> r == s.(viewMode := r.viewMode) && r.viewMode != s.viewMode)
    && (v.CrumbClicked? ==> r == GoToCrumb(s, v.index))
    && (v.BackClicked? && |s.folderPath| > 1 ==>
          r == s.(folderPath := s.folderPath[..|s.folderPath| - 1], currentFolder := s.folderPath[|s.folderPath| - 2].id))
    && (v.SignedIn? || v.SignedOut? || (v.BackClicked? && |s.folderPath| <= 1) ==> r == s)
  }

  /**
   * The view a navigation, search, filter or view-mode event selects. The
   * trail stays rooted and in step with `currentFolder`, and a trail that is
   * only the root crumb stays so.
   */
  function Navigated(s: State, v: ViewEvent): (r: State)
    requires WellFormed(s)
    ensures WellFormed(r)
    ensures r == s.(folderPath := r.folderPath, currentFolder := r.currentFolder, viewMode := r.viewMode,
                    filter := r.filter, query := r.query)
    ensures s.folderPath == [RootCrumb] ==> r.folderPath == [RootCrumb]
    ensures NavigationSets(s, v, r)
  {
    match v
    case SearchTyped(text) => s.(query := Normalize(text))
    case FilterChosen(choice) => s.(filter := choice)
    case ViewToggled => s.(viewMode := if s.viewMode == ListView then Grid else ListView)
    case CrumbClicked(index) =>
      assert s.folderPath == [RootCrumb] ==> s.folderPath[..1] == [RootCrumb];
      GoToCrumb(s, index)
    case BackClicked => GoBack(s)
    case SignedIn => s
    case SignedOut => s
  }

  /**
   * Navigation and view events: signing out drops the admin flag; every other
   * one that changes something refetches.
   */
  function ViewStep(s: State, v: ViewEvent, now: int, env: Env): (r: State)
    requires WellFormed(s)
    ensures WellFormed(r)
    ensures r.token == if ViewStartsFetch(s, v) then s.token + 1 else s.token
    ensures r.token == s.token ==>
      r.folderPath == s.folderPath && r.currentFolder == s.currentFolder && r.filter == s.filter && r.query == s.query
    ensures v.SignedOut? ==> !r.isAdmin
    ensures !v.SignedOut? ==> r.isAdmin == s.isAdmin
  {
    if v.SignedOut? then s.(isAdmin := false)
    else if ViewStartsFetch(s, v) then BeginFetch(Navigated(s, v), now, env)
    else s
  }

  /** Whether an admin event starts a fetch. */
  predicate AdminStartsFetch(s: State, a: AdminEvent, env: Env) {
    match a
    case AdminClicked => s.isAdmin
    case AdminConfirmed(input) => CheckAdmin(input, env.secret, env.digest) == Authorized
    case AdminCancelled => false
    case DeleteClicked(_) => false
    case DeleteFinished(item) => item in s.deleting
  }

  /**
   * The admin button, the admin modal's confirm and the delete button. They
   * never navigate or change the filter or query; the flag goes up on an
   * authorized confirm and nowhere else, and the admin button drops it.
   */
  function AdminStep(s: State, a: AdminEvent, now: int, env: Env): (r: State)
    ensures r.folderPath == s.folderPath && r.currentFolder == s.currentFolder
    ensures r.filter == s.filter && r.query == s.query && r.viewMode == s.viewMode
    ensures r.token == if AdminStartsFetch(s, a, env) then s.token + 1 else s.token
    ensures r.isAdmin && !s.isAdmin ==> a.AdminConfirmed? && CheckAdmin(a.input, env.secret, env.digest) == Authorized
    ensures AdminFlagRule(s, a, env, r)
  {
    var p := AdminPrepared(s, a, env);
    if AdminStartsFetch(s, a, env) then BeginFetch(p, now, env) else p
  }

  /**
   * How an admin event moves the flag and the modal: the admin button drops a
   * raised flag and otherwise opens the modal; an authorized confirm raises
   * the flag and closes the modal, any other confirm leaves both alone; the
   * cancel button closes the modal and keeps the flag; the delete events
   * never touch the flag.
   */
  predicate AdminFlagRule(s: State, a: AdminEvent, env: Env, r: State) {
    && (a.AdminClicked? && s.isAdmin ==> !r.isAdmin)
    && (a.AdminClicked? && !s.isAdmin ==> !r.isAdmin && r.adminPrompt)
    && (a.AdminConfirmed? && CheckAdmin(a.input, env.secret, env.digest) == Authorized ==> r.isAdmin && !r.adminPrompt)
    && (a.AdminConfirmed? && CheckAdmin(a.input, env.secret, env.digest) != Authorized ==>
          r.isAdmin == s.isAdmin && r.adminPrompt == s.adminPrompt)
    && (a.AdminCancelled? ==> r.isAdmin == s.isAdmin && !r.adminPrompt)
    && (a.DeleteClicked? || a.DeleteFinished? ==> r.isAdmin == s.isAdmin)
  }

  /**
   * What an admin event does before any refetch: the admin button drops the
   * flag or opens the modal, an authorized confirm raises the flag and closes
   * the modal, the cancel button closes the modal, an allowed delete click records the delete in flight (a refused
   * one opens the modal), and the end of a recorded delete drops the affected
   * caches.
   */
  function AdminPrepared(s: State, a: AdminEvent, env: Env): (r: State)
    ensures r == s.(isAdmin := r.isAdmin, adminPrompt := r.adminPrompt, rootCache := r.rootCache, filesCache := r.filesCache,
                    deleting := r.deleting)
    ensures r.isAdmin && !s.isAdmin ==> a.AdminConfirmed? && CheckAdmin(a.input, env.secret, env.digest) == Authorized
    ensures AdminFlagRule(s, a, env, r)
  {
    match a
    case AdminClicked =>
      if s.isAdmin then s.(isAdmin := false) else s.(adminPrompt := true)
    case AdminConfirmed(input) =>
      if CheckAdmin(input, env.secret, env.digest) == Authorized then s.(isAdmin := true, adminPrompt := false) else s
    case AdminCancelled =>
      s.(adminPrompt := false)
    case DeleteClicked(item) =>
      if DeleteAllowed(s, env) then s.(deleting := s.deleting + multiset{item}) else s.(adminPrompt := true)
    case DeleteFinished(item) =>
      if item in s.deleting then AfterDelete(s, item) else s
  }

  /**
   * Completed listings. They never start a fetch, navigate, change the filter
   * or query, or touch the admin flag.
   */
  function LoadStep(s: State, l: LoadEvent, now: int, env: Env): (r: State)
    ensures r == s.(rootCache := r.rootCache, filesCache := r.filesCache, display := r.display)
  {
    match l
    case FetchCompleted(f, listing) => CompleteFetch(s, f, listing, now, env)
    case PanelOpened(folderId, names) =>
      if names.None? then s else PanelLoaded(s, folderId, names.value, now, env)
  }

  /** Whether an upload or folder edit starts a fetch. */
  predicate EditStartsFetch(s: State, d: EditEvent) {
    match d
    case UploadHere(start, files) => files != [] && FolderOpen(start) && AllOk(files)
    case UploadTo(_, files) => files != [] && AllOk(files)
    case FolderRenamed(currentName, input, ok) => Trim(input) != "" && Trim(input) != currentName && ok
    case CoverSet(ok) => ok
    case FolderCreated(input, present, ok) => Trim(input) != "" && !present && ok
  }

  /**
   * The caches an edit that went through invalidates before its fetch: an
   * upload drops its target folder's files and the root listing, a rename or
   * cover change the root listing, and a new folder nothing.
   */
  function Invalidated(s: State, d: EditEvent): (r: State)
    ensures r == s.(rootCache := r.rootCache, filesCache := r.filesCache)
    ensures d.UploadHere? || d.UploadTo? || d.FolderRenamed? || d.CoverSet? ==> r.rootCache.None?
  {
    match d
    case UploadHere(start, _) => s.(filesCache := Invalidate(s.filesCache, start), rootCache := None)
    case UploadTo(target, _) => s.(filesCache := Invalidate(s.filesCache, target), rootCache := None)
    case FolderRenamed(_, _, _) => s.(rootCache := None)
    case CoverSet(_) => s.(rootCache := None)
    case FolderCreated(_, _, _) => s
  }

  /**
   * Uploads, renames, cover changes and folder creation: one that went
   * through invalidates its caches and refetches; any other changes nothing.
   */
  function EditStep(s: State, d: EditEvent, now: int, env: Env): (r: State)
    ensures r == s.(token := r.token, display := r.display, rootCache := r.rootCache, filesCache := r.filesCache)
    ensures r.token == if EditStartsFetch(s, d) then s.token + 1 else s.token
  {
    if EditStartsFetch(s, d) then BeginFetch(Invalidated(s, d), now, env) else s
  }

  function Step(s: State, e: Event, now: int, env: Env): (r: State)
    requires WellFormed(s)
    ensures WellFormed(r)
  {
    match e
    case View(v) => ViewStep(s, v, now, env)
    case Admin(a) => var r := AdminStep(s, a, now, env); TrailKept(s, r); r
    case Load(l) => var r := LoadStep(s, l, now, env); TrailKept(s, r); r
    case Edit(d) => var r := EditStep(s, d, now, env); TrailKept(s, r); r
  }

  /** Whether an event starts a fetch (and so takes a new token) from state `s`. */
  predicate StartsFetch(s: State, e: Event, env: Env) {
    match e
    case View(v) => ViewStartsFetch(s, v)
    case Admin(a) => AdminStartsFetch(s, a, env)
    case Load(_) => false
    case Edit(d) => EditStartsFetch(s, d)
  }

  function Run(s: State, events: seq<Timed>, env: Env): State
    requires WellFormed(s)
    decreases |events|
  {
    if events == [] then s
    else
      StepKeepsWellFormed(s, events[0].event, events[0].now, env);
      Run(Step(s, events[0].event, events[0].now, env), events[1..], env)
  }

  // ---- properties ----

  /** Every event keeps the breadcrumb trail rooted and in step with `currentFolder`. */
  lemma StepKeepsWellFormed(s: State, e: Event, now: int, env: Env)
    requires WellFormed(s)
    ensures WellFormed(Step(s, e, now, env))
  {
    match e
    case View(v) =>
    case Admin(a) => TrailKept(s, AdminStep(s, a, now, env));
    case Load(l) => TrailKept(s, LoadStep(s, l, now, env));
    case Edit(d) => TrailKept(s, EditStep(s, d, now, env));
  }

  /** A step that leaves the trail and the open folder alone keeps the state well formed. */
  lemma TrailKept(s: State, r: State)
    requires WellFormed(s) && r.folderPath == s.folderPath && r.currentFolder == s.currentFolder
    ensures WellFormed(r)
  {
  }

  /**
   * The token goes up by one exactly when the event starts a fetch, and
   * nothing that decides what a fetch lists or how it is filtered changes
   * without it.
   */
  lemma StepToken(s: State, e: Event, now: int, env: Env)
    requires WellFormed(s)
    ensures var r := Step(s, e, now, env);
      && r.token == (if StartsFetch(s, e, env) then s.token + 1 else s.token)
      && (r.token == s.token ==>
            r.folderPath == s.folderPath && ContextOf(r) == ContextOf(s) && r.filter == s.filter && r.query == s.query)
  {
  }

  /** Over any run, the token never goes down, and while it stays put the view stays put. */
  lemma {:induction false} RunToken(s: State, events: seq<Timed>, env: Env)
    requires WellFormed(s)
    ensures var r := Run(s, events, env);
      && r.token >= s.token
      && (r.token == s.token ==>
            r.folderPath == s.folderPath && ContextOf(r) == ContextOf(s) && r.filter == s.filter && r.query == s.query)
    decreases |events|
  {
    if events != [] {
      var e := events[0];
      StepKeepsWellFormed(s, e.event, e.now, env);
      StepToken(s, e.event, e.now, env);
      RunToken(Step(s, e.event, e.now, env), events[1..], env);
    }
  }

  /** A fetch whose token is no longer the latest never changes what is on screen. */
  lemma SupersededFetchDoesNotRender(s: State, f: Fetch, listing: Option<StorageListing>, now: int, env: Env)
    requires WellFormed(s) && f.token != s.token
    ensures Step(s, Load(FetchCompleted(f, listing)), now, env).display == s.display
    ensures Step(s, Load(FetchCompleted(f, listing)), now, env).token == s.token
  {
  }

  /**
   * Of two fetches, once the later one has been issued the earlier one can no
   * longer render, whatever happens in between.
   */
  lemma OnlyLaterFetchRenders(s: State, early: Fetch, events: seq<Timed>, listing: Option<StorageListing>,
                              now: int, env: Env)
    requires WellFormed(s) && early.token < s.token
    ensures WellFormed(Run(s, events, env))
    ensures var r := Run(s, events, env);
      Step(r, Load(FetchCompleted(early, listing)), now, env).display == r.display
  {
    RunKeepsWellFormed(s, events, env);
    RunToken(s, events, env);
  }

  lemma {:induction false} RunKeepsWellFormed(s: State, events: seq<Timed>, env: Env)
    requires WellFormed(s)
    ensures WellFormed(Run(s, events, env))
    decreases |events|
  {
    if events != [] {
      StepKeepsWellFormed(s, events[0].event, events[0].now, env);
      RunKeepsWellFormed(Step(s, events[0].event, events[0].now, env), events[1..], env);
    }
  }

  /**
   * The fetch issued last renders the fresh listing, filtered for the view it
   * was issued for: nothing changed the context, filter or query since.
   */
  lemma LatestFetchRenders(s0: State, e: Event, now0: int, events: seq<Timed>, listing: StorageListing,
                           now: int, env: Env)
    requires WellFormed(s0) && StartsFetch(s0, e, env)
    ensures WellFormed(Step(s0, e, now0, env))
    ensures WellFormed(Run(Step(s0, e, now0, env), events, env))
    ensures
      var s1 := Step(s0, e, now0, env);
      var f := LatestFetch(s1);
      var r := Run(s1, events, env);
      r.token == s1.token ==>
        Step(r, Load(FetchCompleted(f, Some(listing))), now, env).display
        == Shape(FetchedItems(f.ctx, listing, env.collate), s1.filter, s1.query, f.ctx, env.collate)
  {
    var s1 := Step(s0, e, now0, env);
    StepKeepsWellFormed(s0, e, now0, env);
    RunKeepsWellFormed(s1, events, env);
    RunToken(s1, events, env);
    var r := Run(s1, events, env);
    if r.token == s1.token {
      CurrentFetchRenders(r, LatestFetch(s1), listing, now, env);
    }
  }

  /** A completion carrying the current token draws its listing for the current view. */
  lemma CurrentFetchRenders(s: State, f: Fetch, listing: StorageListing, now: int, env: Env)
    requires WellFormed(s) && f.token == s.token
    ensures Step(s, Load(FetchCompleted(f, Some(listing))), now, env).display
         == Shape(FetchedItems(f.ctx, listing, env.collate), s.filter, s.query, ContextOf(s), env.collate)
  {
  }

  /**
   * A superseded fetch still overwrites the cache with what it listed: the
   * write comes before the token check.
   */
  lemma SupersededFetchStillWritesCache(s: State, f: Fetch, listing: StorageListing, now: int, env: Env)
    requires WellFormed(s) && f.token != s.token
    ensures var r := Step(s, Load(FetchCompleted(f, Some(listing))), now, env);
      && (f.ctx.Root? ==> r.rootCache == Some(Entry(now, RootItems(listing.prefixes))))
      && (f.ctx.InFolder? ==>
            var e := Entry(now, LoadFolderFiles(f.ctx.folderId, listing.names, env.collate));
            Lookup(r.filesCache, Some(f.ctx.folderId)) == Some(e) && Lookup(r.filesCache, s.currentFolder) == Some(e))
  {
  }

  /** The admin flag goes up only through a confirm whose check says `Authorized`. */
  lemma AdminOnlyByConfirm(s: State, e: Event, now: int, env: Env)
    requires WellFormed(s) && !s.isAdmin && Step(s, e, now, env).isAdmin
    ensures e.Admin? && e.admin.AdminConfirmed? && CheckAdmin(e.admin.input, env.secret, env.digest) == Authorized
  {
  }

  /**
   * The delete button tests the gate before any storage call: a refused click
   * only opens the admin modal, an allowed one only records the delete in
   * flight, and neither touches the caches or starts a fetch.
   */
  lemma DeleteGate(s: State, item: Item, now: int, env: Env)
    requires WellFormed(s)
    ensures var r := Step(s, Admin(DeleteClicked(item)), now, env);
      && (!DeleteAllowed(s, env) ==> r == s.(adminPrompt := true))
      && (DeleteAllowed(s, env) ==> r == s.(deleting := s.deleting + multiset{item}))
  {
  }

  /**
   * When the storage calls of a recorded delete end, the root cache and the
   * affected folder's files are dropped, nothing else in the caches changes,
   * and a fetch starts, whatever the admin flag is by then. The end of a
   * delete that was never let through changes nothing.
   */
  lemma DeleteFinishes(s: State, item: Item, now: int, env: Env)
    requires WellFormed(s)
    ensures var r := Step(s, Admin(DeleteFinished(item)), now, env);
      && (item !in s.deleting ==> r == s)
      && (item in s.deleting ==>
            && r.rootCache.None?
            && r.token == s.token + 1
            && r.isAdmin == s.isAdmin
            && r.deleting == s.deleting - multiset{item}
            && (DeletedFolderKey(item).Some? ==> Lookup(r.filesCache, DeletedFolderKey(item)).None?)
            && (forall k | k != DeletedFolderKey(item) :: Lookup(r.filesCache, k) == Lookup(s.filesCache, k)))
  {
  }

  /**
   * A delete let through while the flag was up still invalidates and
   * refetches after a sign-out that lands while its storage calls run.
   */
  lemma SignOutDuringDeleteStillInvalidates(s: State, item: Item, now: int, env: Env)
    requires WellFormed(s) && DeleteAllowed(s, env)
    ensures var s1 := Step(s, Admin(DeleteClicked(item)), now, env);
      var s2 := Step(s1, View(SignedOut), now, env);
      var r := Step(s2, Admin(DeleteFinished(item)), now, env);
      !s2.isAdmin && !r.isAdmin && r.rootCache.None? && r.token == s.token + 1
  {
    var s1 := Step(s, Admin(DeleteClicked(item)), now, env);
    DeleteGate(s, item, now, env);
    var s2 := Step(s1, View(SignedOut), now, env);
    assert s2 == s1.(isAdmin := false);
    DeleteFinishes(s2, item, now, env);
  }

  /** A view event that refetches is its navigation followed by a fetch. */
  lemma ViewStepIsNavigation(s: State, v: ViewEvent, now: int, env: Env)
    requires WellFormed(s) && !v.SignedOut? && ViewStartsFetch(s, v)
    ensures Step(s, View(v), now, env) == BeginFetch(Navigated(s, v), now, env)
  {
  }

  /** The search box sets the query to the typed text trimmed and lower-cased, and refetches. */
  lemma SearchSetsQuery(s: State, text: string, now: int, env: Env)
    requires WellFormed(s)
    ensures var r := Step(s, View(SearchTyped(text)), now, env);
      r.query == Normalize(text) && r.filter == s.filter && r.folderPath == s.folderPath && r.token == s.token + 1
  {
    ViewStepIsNavigation(s, SearchTyped(text), now, env);
  }

  /** A filter button sets the filter and refetches. */
  lemma FilterSetsFilter(s: State, choice: FilterType, now: int, env: Env)
    requires WellFormed(s)
    ensures var r := Step(s, View(FilterChosen(choice)), now, env);
      r.filter == choice && r.query == s.query && r.folderPath == s.folderPath && r.token == s.token + 1
  {
    ViewStepIsNavigation(s, FilterChosen(choice), now, env);
  }

  /** The view toggle flips between the grid and the list, and refetches. */
  lemma ToggleFlipsView(s: State, now: int, env: Env)
    requires WellFormed(s)
    ensures var r := Step(s, View(ViewToggled), now, env);
      r.viewMode != s.viewMode && r.filter == s.filter && r.query == s.query && r.folderPath == s.folderPath
    ensures Step(Step(s, View(ViewToggled), now, env), View(ViewToggled), now, env).viewMode == s.viewMode
  {
    ViewStepIsNavigation(s, ViewToggled, now, env);
    var s1 := Step(s, View(ViewToggled), now, env);
    StepKeepsWellFormed(s, View(ViewToggled), now, env);
    ViewStepIsNavigation(s1, ViewToggled, now, env);
  }

  /**
   * The back button below the root drops the last crumb, opens the one before
   * it and refetches; at the root it does nothing.
   */
  lemma BackDropsLastCrumb(s: State, now: int, env: Env)
    requires WellFormed(s)
    ensures var r := Step(s, View(BackClicked), now, env);
      && (|s.folderPath| > 1 ==>
            && r.folderPath == s.folderPath[..|s.folderPath| - 1]
            && r.currentFolder == r.folderPath[|r.folderPath| - 1].id
            && r.token == s.token + 1)
      && (|s.folderPath| <= 1 ==> r == s)
  {
    if |s.folderPath| > 1 {
      ViewStepIsNavigation(s, BackClicked, now, env);
    }
  }

  /** An authorized confirm raises the flag and closes the modal, from any state. */
  lemma ConfirmGrantsAdmin(s: State, input: string, now: int, env: Env)
    requires WellFormed(s)
    ensures var r := Step(s, Admin(AdminConfirmed(input)), now, env);
      CheckAdmin(input, env.secret, env.digest) == Authorized ==> r.isAdmin && !r.adminPrompt && r.token == s.token + 1
  {
    var a := AdminConfirmed(input);
    assert Step(s, Admin(a), now, env) == AdminStep(s, a, now, env);
    assert AdminFlagRule(s, a, env, AdminStep(s, a, now, env));
  }

  /** The modal's cancel button only closes the modal: no check, no fetch, and the flag stays as it was. */
  lemma CancelClosesModal(s: State, now: int, env: Env)
    requires WellFormed(s)
    ensures var r := Step(s, Admin(AdminCancelled), now, env);
      r == s.(adminPrompt := false)
  {
  }

  /** The admin button with the flag up, and a sign-out, both drop the flag. */
  lemma AdminFlagFalls(s: State, now: int, env: Env)
    requires WellFormed(s)
    ensures s.isAdmin ==> !Step(s, Admin(AdminClicked), now, env).isAdmin
    ensures !Step(s, View(SignedOut), now, env).isAdmin
  {
  }

  /**
   * The confirm checks the password when its digest returns. A sign-out that
   * lands while the digest runs is followed by the flag going up, and the next
   * sign-in keeps it.
   */
  lemma SignOutDuringConfirmKeepsAdmin(s: State, input: string, now: int, env: Env)
    requires WellFormed(s)
    ensures var s1 := Step(s, View(SignedOut), now, env);
      var s2 := Step(s1, Admin(AdminConfirmed(input)), now, env);
      CheckAdmin(input, env.secret, env.digest) == Authorized ==>
        !s1.isAdmin && s2.isAdmin && Step(s2, View(SignedIn), now, env).isAdmin
  {
    var s1 := Step(s, View(SignedOut), now, env);
    ConfirmGrantsAdmin(s1, input, now, env);
    ViewKeepsFlag(Step(s1, Admin(AdminConfirmed(input)), now, env), SignedIn, now, env);
  }

  lemma ViewKeepsFlag(s: State, v: ViewEvent, now: int, env: Env)
    requires WellFormed(s) && !v.SignedOut?
    ensures Step(s, View(v), now, env).isAdmin == s.isAdmin
  {
  }

  /** Deleting a listed file forgets the cached files of the folder it was listed in. */
  lemma DeleteListedFileInvalidatesItsFolder(folderId: string, name: string)
    requires folderId != "" && '/' !in folderId && IsTrimmed(folderId)
    ensures DeletedFolderKey(ListedFile(folderId, name)) == Some(folderId)
  {
    var item := ListedFile(folderId, name);
    assert item.id == folderId + ("/" + name);
    FirstSegmentOfJoin(folderId, "/" + name);
    TrimOfPadded([], folderId, []);
    assert [] + folderId + [] == folderId;
  }

  lemma {:induction false} FirstSegmentOfJoin(a: string, rest: string)
    requires '/' !in a && rest != [] && rest[0] == '/'
    ensures FirstSegment(a + rest) == a
  {
    if a != [] {
      assert (a + rest)[1..] == a[1..] + rest;
      FirstSegmentOfJoin(a[1..], rest);
    } else {
      assert a + rest == rest;
    }
  }

  /** Uploads refresh the caches only when every file went up; a failed one leaves the state alone. */
  lemma UploadInvalidatesOnlyOnSuccess(s: State, target: Option<string>, files: seq<FileUpload>, now: int, env: Env)
    requires WellFormed(s) && files != []
    ensures var r := Step(s, Edit(UploadTo(target, files)), now, env);
      && (AllOk(files) ==> r.rootCache.None? && Lookup(r.filesCache, target).None? && r.token == s.token + 1)
      && (!AllOk(files) ==> r == s)
  {
  }

  /**
   * An upload that went through forgets its own target's files and no other
   * folder's; an upload from the open folder targets the folder open when it
   * began, and with none open it changes nothing.
   */
  lemma UploadForgetsOnlyItsTarget(s: State, target: Option<string>, start: Option<string>, files: seq<FileUpload>, now: int, env: Env)
    requires WellFormed(s) && files != [] && AllOk(files)
    ensures var r := Step(s, Edit(UploadTo(target, files)), now, env);
      && Lookup(r.filesCache, target).None?
      && forall k | k != target :: Lookup(r.filesCache, k) == Lookup(s.filesCache, k)
    ensures var r := Step(s, Edit(UploadHere(start, files)), now, env);
      && (FolderOpen(start) ==>
            && Lookup(r.filesCache, start).None?
            && forall k | k != start :: Lookup(r.filesCache, k) == Lookup(s.filesCache, k))
      && (!FolderOpen(start) ==> r == s)
  {
  }

  /**
   * Leaving the folder while its upload runs does not redirect it: the upload
   * that began there still forgets that folder's files once it finishes.
   */
  lemma BackDuringUploadKeepsTarget(s: State, files: seq<FileUpload>, now: int, env: Env)
    requires WellFormed(s) && files != [] && AllOk(files) && FolderOpen(s.currentFolder)
    ensures var mid := Step(s, View(BackClicked), now, env);
      var r := Step(mid, Edit(UploadHere(s.currentFolder, files)), now, env);
      && Lookup(r.filesCache, s.currentFolder).None?
      && r.rootCache.None?
  {
  }

  /**
   * Creating a folder invalidates no cache: a fresh root entry keeps showing
   * the listing without the new folder until the refetch lands.
   */
  lemma FolderCreationKeepsCaches(s: State, input: string, present: bool, ok: bool, now: int, env: Env)
    requires WellFormed(s)
    ensures var r := Step(s, Edit(FolderCreated(input, present, ok)), now, env);
      && r.rootCache == s.rootCache && r.filesCache == s.filesCache
      && r.token == if Trim(input) != "" && !present && ok then s.token + 1 else s.token
  {
  }

  /** From the state the page starts in, every run stays at the root crumb, in the root context. */
  lemma StartupStaysAtRoot(events: seq<Timed>, env: Env)
    ensures WellFormed(Initial)
    ensures Run(Initial, events, env).folderPath == [RootCrumb]
    ensures ContextOf(Run(Initial, events, env)) == Root
  {
    AlwaysAtRoot(Initial, events, env);
  }

  /**
   * The dashboard never appends to `folderPath`: from the initial state every
   * run stays at the root, so the in-folder branches are never taken.
   */
  lemma {:induction false} AlwaysAtRoot(s: State, events: seq<Timed>, env: Env)
    requires WellFormed(s) && s.folderPath == [RootCrumb]
    ensures Run(s, events, env).folderPath == [RootCrumb]
    ensures ContextOf(Run(s, events, env)) == Root
    decreases |events|
  {
    if events != [] {
      var e := events[0];
      StepKeepsWellFormed(s, e.event, e.now, env);
      AlwaysAtRoot(Step(s, e.event, e.now, env), events[1..], env);
    }
  }

  /** A cached listing renders at once while it is fresh and never once 30 s have passed. */
  lemma OptimisticRenderNeedsFreshCache(s: State, now: int, env: Env)
    requires ContextOf(s).Root? && s.rootCache.Some?
    ensures now - s.rootCache.value.time >= CacheTtlMs ==> BeginFetch(s, now, env).display == []
    ensures now - s.rootCache.value.time < CacheTtlMs ==>
      BeginFetch(s, now, env).display == Shape(s.rootCache.value.items, s.filter, s.query, Root, env.collate)
  {
  }

  /** Inside a folder the same holds for the folder's cached files. */
  lemma OptimisticRenderInFolder(s: State, now: int, env: Env)
    requires ContextOf(s).InFolder? && Lookup(s.filesCache, s.currentFolder).Some?
    ensures var e := Lookup(s.filesCache, s.currentFolder).value;
      && (now - e.time >= CacheTtlMs ==> BeginFetch(s, now, env).display == [])
      && (now - e.time < CacheTtlMs ==>
            BeginFetch(s, now, env).display == Shape(e.items, s.filter, s.query, ContextOf(s), env.collate))
  {
    var id := ContextOf(s).folderId;
    assert s.currentFolder == Some(id);
    var e := Lookup(s.filesCache, s.currentFolder).value;
    assert CachedFor(s, ContextOf(s), now) == FreshItems(Some(e), now);
  }
}
