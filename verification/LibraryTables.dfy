/** The tables that the library scan and the hidden-title code share, as one value.

    Hashes are collision-free, so a hash is modelled by what it was computed from. The user tables and
    the global tables that record hides differ only in their owner; both are kept in one relation keyed
    by a scope. */
module LibraryTables {
  import opened Options
  import ScanPlan

  type RowId = ScanPlan.RowId

  datatype SourceKind = Local | Cloud

  /** The columns that the legacy title keys are computed from. */
  datatype Titling = Titling(title: string, year: Option<int>, filename: string)

  /** Folder columns owned by the scanner. */
  datatype Folder = Folder(
    seriesKey: Option<string>,
    seriesName: Option<string>,
    category: Option<string>,
    categoryPath: Option<string>,
    categoryName: Option<string>,
    role: Option<string>,
    path: Option<string>,
    name: Option<string>)

  datatype Material =
    | ExternalId(source: nat, externalId: string)
    | ResourceKey(source: nat, resourceKey: string)
    | SourcePath(source: nat, locator: string)

  /** An opaque copy-v2 identity: random for local rows, derived from provider material for cloud rows. */
  datatype Identity = Random(token: nat) | Derived(material: Material)

  datatype Item = Item(
    path: string,
    kind: SourceKind,
    source: nat,
    titling: Titling,
    size: int,
    mtime: int,
    folder: Folder,
    externalId: string,
    resourceKey: string,
    identity: Option<Identity>)

  datatype FileStat = FileStat(
    regular: bool,
    dev: nat,
    ino: nat,
    size: int,
    mtime: int,
    mtimeNs: int,
    ctimeNs: int,
    sample: Option<nat>)

  datatype Evidence =
    | InodeV2(source: nat, dev: nat, ino: nat, size: int, mtimeNs: int, ctimeNs: int)
    | InodeV1(source: nat, dev: nat, ino: nat)
    | Sample(source: nat, digest: nat)

  datatype Alias = Alias(identity: Identity, source: nat, locator: string, evidence: Evidence)

  datatype Scope = User(id: int) | Everyone

  datatype MovieKey = CopyKey(identity: Identity) | LegacyKey(text: string)

  datatype Tables = Tables(
    items: map<RowId, Item>,
    nextId: RowId,
    aliases: set<Alias>,
    hides: set<(Scope, RowId)>,
    keys: set<(Scope, MovieKey)>)

  /** What the code reads but does not own: the title normaliser, path normalisation and the disk. */
  datatype Environment = Environment(
    legacyKeys: Titling -> set<string>,
    locator: string -> string,
    disk: map<string, FileStat>)
  {
    function Stat(path: string): Option<FileStat> {
      if path in disk then Some(disk[path]) else None
    }
  }

  type Items = map<RowId, Item>

  // ----- constraints the database enforces -----

  ghost predicate UniquePaths(items: Items) {
    forall a, b :: a in items && b in items && items[a].path == items[b].path ==> a == b
  }

  ghost predicate UniqueIdentities(items: Items) {
    forall a, b :: a in items && b in items && items[a].identity.Some? && items[a].identity == items[b].identity ==>
        a == b
  }

  ghost predicate Valid(t: Tables) {
    && UniquePaths(t.items)
    && UniqueIdentities(t.items)
    && (forall id :: id in t.items ==> id < t.nextId)
    && (forall h :: h in t.hides ==> h.1 in t.items)
  }

  ghost predicate AllIdentified(items: Items) {
    forall id :: id in items ==> items[id].identity.Some?
  }

  // ----- visibility -----

  function CandidateKeys(env: Environment, item: Item): set<MovieKey> {
    (if item.identity.Some? then {CopyKey(item.identity.value)} else {}) +
    set k | k in env.legacyKeys(item.titling) :: LegacyKey(k)
  }

  /** A row is hidden in a scope directly, or through any of its keys. */
  ghost predicate Hidden(t: Tables, env: Environment, scope: Scope, id: RowId)
    requires id in t.items
  {
    (scope, id) in t.hides || exists key :: key in CandidateKeys(env, t.items[id]) && (scope, key) in t.keys
  }

  // ----- identities in use -----

  predicate OwnedBy(items: Items, identity: Identity, id: RowId) {
    id in items && items[id].identity == Some(identity)
  }

  /** Another active row holds the identity. */
  predicate OwnedElsewhere(items: Items, identity: Identity, excluding: RowId) {
    exists id :: id in items && id != excluding && OwnedBy(items, identity, id)
  }

  /** The identity occurs somewhere in the tables; a new random identity never does. */
  ghost predicate Mentions(t: Tables, identity: Identity) {
    || (exists id :: OwnedBy(t.items, identity, id))
    || (exists a :: a in t.aliases && a.identity == identity)
    || (exists scope :: (scope, CopyKey(identity)) in t.keys)
  }
}
