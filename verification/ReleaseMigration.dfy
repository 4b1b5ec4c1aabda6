/** Migrating a release into the runtime directory as a transaction: the manifest is placed last, and any
    failure before the commit is undone in reverse order. Every file-system call may fail. */
module ReleaseMigration {
  import opened Options
  import opened Destination

  datatype EntryState = Prepared | PlacementStarted | Placed | Committed

  datatype Entry = Entry(name: string, inode: Inode, content: nat, state: EntryState)

  /** A recorded mode change: the fingerprint says which file it was. */
  datatype Repair = Repair(name: string, inode: Inode, content: nat, mtime: nat, mode: nat)

  // ----- undoing mode changes -----

  /** The modes after the recorded changes are undone, last change first. */
  function Undone(nodes: map<Inode, Node>, repairs: seq<Repair>): (undone: map<Inode, Node>)
    ensures undone.Keys == nodes.Keys
  {
    if repairs == [] then nodes
    else
      var last := repairs[|repairs| - 1];
      Undone(if last.inode in nodes then nodes[last.inode := nodes[last.inode].(mode := last.mode)]
          else nodes, repairs[..|repairs| - 1])
  }

  /** Recording a file's mode and then changing it leaves the undone modes as they were. */
  lemma RepairIsUndone(nodes: map<Inode, Node>, repairs: seq<Repair>, r: Repair, mode: nat)
    requires r.inode in nodes && r.mode == nodes[r.inode].mode
    ensures Undone(nodes[r.inode := nodes[r.inode].(mode := mode)], repairs + [r]) == Undone(nodes, repairs)
    ensures Undone(nodes, repairs + [r]) == Undone(nodes, repairs)
  {
    var changed := nodes[r.inode := nodes[r.inode].(mode := mode)];
    assert (repairs + [r])[..|repairs|] == repairs;
    assert changed[r.inode := changed[r.inode].(mode := r.mode)] == nodes;
    assert nodes[r.inode := nodes[r.inode].(mode := r.mode)] == nodes;
  }

  /** Undoing touches only modes, and only of recorded files. */
  lemma {:induction false} UndoneKeeps(nodes: map<Inode, Node>, repairs: seq<Repair>, i: Inode)
    ensures i in nodes ==> Undone(nodes, repairs)[i] == nodes[i].(mode := Undone(nodes, repairs)[i].mode)
    ensures i in nodes && (forall r :: r in repairs ==> r.inode != i) ==> Undone(nodes, repairs)[i] == nodes[i]
  {
    if repairs != [] {
      var last := repairs[|repairs| - 1];
      var next := if last.inode in nodes then nodes[last.inode := nodes[last.inode].(mode := last.mode)] else nodes;
      UndoneKeeps(next, repairs[..|repairs| - 1], i);
      assert last in repairs;
    }
  }

  /** Changes to files that no repair names commute with undoing. */
  lemma {:induction false} UndoneElsewhere(nodes: map<Inode, Node>, repairs: seq<Repair>, i: Inode, node: Node)
    requires forall r :: r in repairs ==> r.inode != i && r.inode in nodes
    ensures Undone(nodes[i := node], repairs) == Undone(nodes, repairs)[i := node]
  {
    if repairs != [] {
      var last := repairs[|repairs| - 1];
      assert last in repairs;
      var next := nodes[last.inode := nodes[last.inode].(mode := last.mode)];
      UndoneElsewhere(next, repairs[..|repairs| - 1], i, node);
      assert nodes[i := node][last.inode := nodes[last.inode].(mode := last.mode)] == next[i := node];
    }
  }

  // ----- the state of a transaction -----

  /** A linked name that was not there at the start belongs to an entry of this run. */
  ghost predicate Owned(ledger: seq<Entry>, name: string, inode: Inode) {
    exists k :: 0 <= k < |ledger| && ledger[k].name == name && ledger[k].inode == inode &&
                (ledger[k].state == PlacementStarted || ledger[k].state == Placed)
  }

  /** Between two calls: everything of d0 is still linked, whatever else is linked was placed by this run,
      and undoing the recorded mode changes gives back the files of d0. */
  ghost predicate InTransaction(d0: Disk, d: Disk, ledger: seq<Entry>, repairs: seq<Repair>) {
    && Sound(d0) && Sound(d) && d0.exists_ && d.exists_ && d.dirId == d0.dirId && d0.next <= d.next
    && (forall n :: n in d0.names ==> n in d.names && d.names[n] == d0.names[n])
    && (forall n :: n in d.names && n !in d0.names ==> Owned(ledger, n, d.names[n]))
    && LedgerFits(d0, d, ledger)
    && RepairsFit(d0, d, repairs)
  }

  ghost predicate LedgerFits(d0: Disk, d: Disk, ledger: seq<Entry>) {
    && (forall k :: 0 <= k < |ledger| ==> EntryFits(d0, d, ledger[k]))
    && (forall i, j :: 0 <= i < j < |ledger| ==> ledger[i].name != ledger[j].name)
  }

  ghost predicate EntryFits(d0: Disk, d: Disk, e: Entry) {
    && e.name !in d0.names && d0.next <= e.inode
    && e.inode in d.nodes && d.nodes[e.inode].regular && d.nodes[e.inode].content == e.content &&
       d.nodes[e.inode].mode == IMMUTABLE
    && (e.state == Prepared ==> e.name !in d.names)
    && (e.name in d.names ==> d.names[e.name] == e.inode)
  }

  ghost predicate RepairsFit(d0: Disk, d: Disk, repairs: seq<Repair>) {
    && (forall r :: r in repairs ==> r.inode in d0.nodes && r.name in d0.names && d0.names[r.name] == r.inode &&
                                     d0.nodes[r.inode].regular && d0.nodes[r.inode].content == r.content &&
                                         d0.nodes[r.inode].mtime == r.mtime)
    && (forall i :: i in d0.nodes ==> i in d.nodes && Undone(d.nodes, repairs)[i] == d0.nodes[i])
  }

  // ----- one copied file -----

  /** The directory in the middle of a copy that began in b: the temporary file, and perhaps the final link. */
  function Copying(b: Disk, temp: string, name: Option<string>, node: Node): Disk {
    var names := b.names[temp := b.next];
    b.(names := if name.Some? then names[name.value := b.next]
        else names, nodes := b.nodes[b.next := node], next := b.next + 1)
  }

  /** The directory after the temporary name was removed again. */
  function Copied(b: Disk, name: Option<string>, node: Node): Disk {
    b.(names := if name.Some? then b.names[name.value := b.next]
        else b.names, nodes := b.nodes[b.next := node], next := b.next + 1)
  }

  lemma CleanupRemovesTemp(b: Disk, temp: string, name: Option<string>, node: Node)
    requires temp !in b.names && name != Some(temp)
    ensures Unlink(Copying(b, temp, name, node), temp) == Copied(b, name, node)
  {
    var names := b.names[temp := b.next];
    if name.Some? {
      assert names[name.value := b.next] - {temp} == b.names[name.value := b.next];
    } else {
      assert names - {temp} == b.names;
    }
  }

  /** A copy disturbs no other file; the manifest may appear only when everything else is there. */
  lemma CopyBacked(b: Disk, d: Disk, source: map<string, nat>, inode: Inode)
    requires Sound(b) && ManifestBacked(b, source) && inode !in b.nodes
    requires d.nodes.Keys >= b.nodes.Keys && forall i :: i in b.nodes ==> d.nodes[i] == b.nodes[i]
    requires forall n :: n in b.names ==> n in d.names && d.names[n] == b.names[n]
    requires MANIFEST in d.names && MANIFEST !in b.names ==>
      forall n :: n in source ==> SameContent(b, n, source[n]) || SameContent(d, n, source[n])
    ensures ManifestBacked(d, source)
  {
    if MANIFEST in d.names {
      forall n | n in source ensures SameContent(d, n, source[n]) {
        if MANIFEST in b.names { assert SameContent(b, n, source[n]); }
      }
    }
  }

  lemma CopyKeepsOwned(d0: Disk, b: Disk, ledger: seq<Entry>, e: Entry, n: string)
    requires n in b.names && n !in d0.names ==> Owned(ledger, n, b.names[n])
    requires e.inode == b.next
    ensures n in b.names && n !in d0.names ==> Owned(ledger + [e], n, b.names[n])
    ensures e.state == PlacementStarted || e.state == Placed ==> Owned(ledger + [e], e.name, b.next)
  {
    var ledger' := ledger + [e];
    assert ledger'[|ledger|] == e;
    if n in b.names && n !in d0.names {
      var k :| 0 <= k < |ledger| && ledger[k].name == n && ledger[k].inode == b.names[n] &&
          (ledger[k].state == PlacementStarted || ledger[k].state == Placed);
      assert ledger'[k] == ledger[k];
    }
  }

  lemma CopyKeepsLedger(d0: Disk, b: Disk, d: Disk, ledger: seq<Entry>, node: Node, name: Option<string>)
    requires Sound(b) && LedgerFits(d0, b, ledger) && d == Copied(b, name, node)
    requires name.Some? ==> forall k :: 0 <= k < |ledger| ==> ledger[k].name != name.value
    ensures LedgerFits(d0, d, ledger)
  {
    forall k | 0 <= k < |ledger| ensures EntryFits(d0, d, ledger[k]) {
      assert EntryFits(d0, b, ledger[k]);
    }
  }

  lemma CopyKeepsRepairs(d0: Disk, b: Disk, d: Disk, repairs: seq<Repair>, node: Node, name: Option<string>)
    requires Sound(d0) && RepairsFit(d0, b, repairs) && d0.next <= b.next && d == Copied(b, name, node)
    ensures RepairsFit(d0, d, repairs)
  {
    UndoneElsewhereAll(d0, b, repairs, b.next, node);
  }

  /** What a copy may leave behind: nothing, an entry that was never linked, or an entry that was. */
  ghost predicate CopyLeaves(b: Disk, d: Disk, ledger: seq<Entry>, ledger': seq<Entry>, name: string, content: nat) {
    || (d == b && ledger' == ledger)
    || (ledger' == ledger && exists node :: d == Copied(b, None, node))
    || (exists mtime, state, linked :: LeftEntry(b, d, ledger, ledger', name, content, mtime, state, linked))
  }

  ghost predicate LeftEntry(b: Disk, d: Disk, ledger: seq<Entry>, ledger': seq<Entry>, name: string, content: nat,
                            mtime: nat, state: EntryState, linked: bool) {
    && ledger' == ledger + [Entry(name, b.next, content, state)]
    && state != Committed && (linked ==> state != Prepared) && (state == Placed ==> linked)
    && d == Copied(b, if linked then Some(name) else None, Node(true, content, IMMUTABLE, mtime))
  }

  /** After a copy, finished or not, the transaction state holds with the entry the copy left behind. */
  lemma CopyKeepsTransaction(d0: Disk, b: Disk, d: Disk, ledger: seq<Entry>, ledger': seq<Entry>, repairs: seq<Repair>,
                             name: string, content: nat)
    requires InTransaction(d0, b, ledger, repairs) && CopyLeaves(b, d, ledger, ledger', name, content)
    requires name !in b.names && forall k :: 0 <= k < |ledger| ==> ledger[k].name != name
    ensures InTransaction(d0, d, ledger', repairs)
  {
    if d == b && ledger' == ledger {
    } else if node :| ledger' == ledger && d == Copied(b, None, node) {
      CopyKeepsLedger(d0, b, d, ledger, node, None);
      CopyKeepsRepairs(d0, b, d, repairs, node, None);
    } else {
      var mtime, state, linked :| LeftEntry(b, d, ledger, ledger', name, content, mtime, state, linked);
      var e, link, node := Entry(name, b.next, content, state), if linked then Some(name)
          else None, Node(true, content, IMMUTABLE, mtime);
      CopyKeepsLedger(d0, b, d, ledger, node, link);
      CopyKeepsRepairs(d0, b, d, repairs, node, link);
      NewEntryFits(d0, b, d, ledger, e, node, linked);
      forall n | n in d.names && n !in d0.names ensures Owned(ledger', n, d.names[n]) {
        CopyKeepsOwned(d0, b, ledger, e, n);
      }
    }
  }

  lemma NewEntryFits(d0: Disk, b: Disk, d: Disk, ledger: seq<Entry>, e: Entry, node: Node, linked: bool)
    requires d0.next <= b.next && e.name !in b.names && e.inode == b.next &&
             node == Node(true, e.content, IMMUTABLE, node.mtime)
    requires forall n :: n in d0.names ==> n in b.names
    requires d == Copied(b, if linked then Some(e.name) else None, node) && (linked ==> e.state != Prepared)
    requires LedgerFits(d0, d, ledger) && forall k :: 0 <= k < |ledger| ==> ledger[k].name != e.name
    ensures LedgerFits(d0, d, ledger + [e])
  {
    assert EntryFits(d0, d, e);
  }

  lemma UndoneElsewhereAll(d0: Disk, b: Disk, repairs: seq<Repair>, i: Inode, node: Node)
    requires Sound(d0) && RepairsFit(d0, b, repairs) && d0.next <= i
    ensures Undone(b.nodes[i := node], repairs) == Undone(b.nodes, repairs)[i := node]
  {
    UndoneElsewhere(b.nodes, repairs, i, node);
  }

  // ----- the transaction object -----

  class Migration {
    const source: map<string, nat>
    const packages: seq<string>
    const quiet: bool
    var fs: Disk
    var ledger: seq<Entry>
    var repairs: seq<Repair>
    ghost var states: seq<Disk>
    ghost var steps: seq<Step>

    /** The recorded history leads, one call at a time, to the directory as it is. */
    ghost predicate Recorded()
      reads this
    {
      History(states, steps) && states[|steps|] == fs && (quiet ==> Foreign !in steps)
    }

    /** In every state of the history an active manifest is backed by the whole release. */
    ghost predicate Backed()
      reads this
    {
      Recorded() && forall k :: 0 <= k < |states| ==> ManifestBacked(states[k], source)
    }

    constructor (fs: Disk, packages: seq<string>, source: map<string, nat>, quiet: bool)
      ensures this.fs == fs && this.packages == packages && this.source == source && this.quiet == quiet
      ensures ledger == [] && repairs == [] && states == [fs] && steps == [] && Recorded()
    {
      this.fs, this.packages, this.source, this.quiet := fs, packages, source, quiet;
      ledger, repairs, states, steps := [], [], [fs], [];
    }

    /** Whether the next file-system call fails. */
    method Fault() returns (fails: bool) {
      fails := *;
    }

    /** A successful call of the run. */
    method Call(ghost step: Step, d: Disk)
      requires Recorded() && Leads(fs, step, d) && step != Foreign
      modifies this`fs, this`states, this`steps
      ensures fs == d && states == old(states) + [d] && steps == old(steps) + [step]
      ensures Recorded()
    {
      HistoryStep(states, steps, step, d);
      fs, states, steps := d, states + [d], steps + [step];
    }

    /** A successful call whose result keeps the manifest backed. */
    method BackedCall(ghost step: Step, d: Disk)
      requires Backed() && Leads(fs, step, d) && step != Foreign && ManifestBacked(d, source)
      modifies this`fs, this`states, this`steps
      ensures fs == d && Backed() && old(states) <= states && old(steps) <= steps
    {
      Call(step, d);
    }

    /** One successful call inside a copy that began in b. */
    method Advance(ghost step: Step, d: Disk, ghost b: Disk, ghost temp: string, ghost name: Option<string>,
                   ghost node: Node)
      requires Backed() && Leads(fs, step, d) && step != Foreign
      requires CopyMayAppear(b, source, temp, name, node) && d == Copying(b, temp, name, node)
      modifies this`fs, this`states, this`steps
      ensures fs == d && Backed() && old(states) <= states && old(steps) <= steps
    {
      CopyStageBacked(b, source, temp, name, node);
      BackedCall(step, d);
    }

    method RemoveTemporary(temp: string, ghost b: Disk, ghost name: Option<string>, ghost node: Node)
      requires Backed() && CopyMayAppear(b, source, temp, name, node) && fs == Copying(b, temp, name, node)
      modifies this`fs, this`states, this`steps
      ensures fs == Copied(b, name, node) && Backed() && old(states) <= states && old(steps) <= steps
    {
      CleanupRemovesTemp(b, temp, name, node);
      CopyEndBacked(b, source, temp, name, node);
      BackedCall(UnlinkFile(temp), Unlink(fs, temp));
    }

    /** Some name mkstemp may pick: unused, and no name of the release. */
    method TemporaryName() returns (temp: string)
      ensures temp !in fs.names && temp !in source
    {
      var taken := fs.names.Keys + source.Keys;
      ghost var long := UnusedName(taken);
      temp :| temp !in taken;
    }

    /** Make, fill, verify and protect the temporary file; any failure removes it again. */
    method FillTemporary(temp: string, content: nat, mtime: nat) returns (ok: bool)
      requires Backed() && CopyMayAppear(fs, source, temp, None, Node(true, content, IMMUTABLE, mtime))
      modifies this`fs, this`states, this`steps
      ensures Backed() && old(states) <= states && old(steps) <= steps
      ensures ok ==> fs == Copying(old(fs), temp, None, Node(true, content, IMMUTABLE, mtime))
      ensures !ok ==> exists node :: fs == Copied(old(fs), None, node)
    {
      hide ManifestBacked; hide History; hide Migration.Backed;
      ghost var b := fs;
      var inode := fs.next;
      var node := Node(true, 0, 0x180, mtime);
      CopyStages(b, temp, "");
      Advance(CreateFile(temp, node), Create(fs, temp, node), b, temp, None, node);
      // Writing and reading back may fail, and a failed write may leave anything.
      var fails := Fault();
      var written: nat := *;
      node := node.(content := if fails then written else content);
      Advance(WriteFile(inode, node.content), SetNode(fs, inode, node), b, temp, None, node);
      if !fails { fails := Fault(); }
      if fails {
        RemoveTemporary(temp, b, None, node);
        return false;
      }
      node := node.(mode := IMMUTABLE);
      Advance(ChangeMode(inode, IMMUTABLE), Chmod(fs, inode, IMMUTABLE), b, temp, None, node);
      fails := Fault();
      if fails {
        RemoveTemporary(temp, b, None, node);
      }
      ok := !fails;
    }

    /** Record the artifact, link it without overwriting, and drop the temporary name. */
    method PlaceTemporary(name: string, temp: string, ghost b: Disk, node: Node) returns (ok: bool)
      requires Backed() && CopyMayAppear(b, source, temp, Some(name), node) && node.regular && node.mode == IMMUTABLE
      requires fs == Copying(b, temp, None, node)
      modifies this`fs, this`ledger, this`states, this`steps
      ensures Backed() && old(states) <= states && old(steps) <= steps
      ensures exists state, linked :: LeftEntry(b, fs, old(ledger), ledger, name, node.content, node.mtime, state,
              linked)
      ensures ok ==> LeftEntry(b, fs, old(ledger), ledger, name, node.content, node.mtime, Placed, true)
    {
      ghost var entries := ledger;
      var inode := fs.names[temp];
      CopyStages(b, temp, name);
      ledger := ledger + [Entry(name, inode, node.content, Prepared)];
      var fails := Fault();
      if fails {
        RemoveTemporary(temp, b, None, node);
        assert LeftEntry(b, fs, entries, ledger, name, node.content, node.mtime, Prepared, false);
        return false;
      }
      ledger := ledger[|ledger| - 1 := ledger[|ledger| - 1].(state := PlacementStarted)];
      fails := Fault();
      if fails || name in fs.names {
        RemoveTemporary(temp, b, None, node);
        assert LeftEntry(b, fs, entries, ledger, name, node.content, node.mtime, PlacementStarted, false);
        return false;
      }
      Advance(LinkFile(name, inode), Link(fs, name, inode), b, temp, Some(name), node);
      fails := Fault();
      if fails {
        RemoveTemporary(temp, b, Some(name), node);
        assert LeftEntry(b, fs, entries, ledger, name, node.content, node.mtime, PlacementStarted, true);
        return false;
      }
      ledger := ledger[|ledger| - 1 := ledger[|ledger| - 1].(state := Placed)];
      RemoveTemporary(temp, b, Some(name), node);
      assert LeftEntry(b, fs, entries, ledger, name, node.content, node.mtime, Placed, true);
      fails := Fault();
      ok := !fails;
    }

    /** Copy one file beside its destination, verify it, and link it into place. */
    method CopyVerified(name: string, mtime: nat) returns (ok: bool)
      requires Backed() && Sound(fs) && name in source && name !in fs.names && MANIFEST in source
      requires name == MANIFEST ==> forall n :: n in source && n != MANIFEST ==> SameContent(fs, n, source[n])
      modifies this`fs, this`ledger, this`states, this`steps
      ensures Backed() && old(states) <= states && old(steps) <= steps
      ensures CopyLeaves(old(fs), fs, old(ledger), ledger, name, source[name])
      ensures ok ==> LeftEntry(old(fs), fs, old(ledger), ledger, name, source[name], mtime, Placed, true)
    {
      ghost var b := fs;
      var fails := Fault();
      if fails { return false; }
      var temp := TemporaryName();
      ok := FillTemporary(temp, source[name], mtime);
      if ok {
        ok := PlaceTemporary(name, temp, b, Node(true, source[name], IMMUTABLE, mtime));
      }
    }

    /** Record a file's mode, then make the file immutable. */
    method RepairMode(name: string) returns (ok: bool)
      requires Backed() && name in fs.names && fs.names[name] in fs.nodes
      modifies this`fs, this`repairs, this`states, this`steps
      ensures Backed() && old(states) <= states && old(steps) <= steps
      ensures RepairLeaves(old(fs), fs, old(repairs), repairs, name)
      ensures ok ==> fs == Chmod(old(fs), old(fs).names[name], IMMUTABLE) && old(fs).nodes[old(fs).names[name]].regular
    {
      var inode := fs.names[name];
      var node := fs.nodes[inode];
      var fails := Fault();
      if fails || !node.regular { return false; }
      repairs := repairs + [Repair(name, inode, node.content, node.mtime, node.mode)];
      fails := Fault();
      if fails { return false; }
      ChmodBacked(fs, source, inode, IMMUTABLE);
      BackedCall(ChangeMode(inode, IMMUTABLE), Chmod(fs, inode, IMMUTABLE));
      fails := Fault();
      ok := !fails;
    }

    /** The commit: every placed artifact stays. */
    method Commit()
      modifies this`ledger
      ensures |ledger| == |old(ledger)|
      ensures forall k :: 0 <= k < |ledger| ==>
                ledger[k] == if old(ledger)[k].state == Placed then old(ledger)[k].(state := Committed)
                    else old(ledger)[k]
    {
      for k := 0 to |ledger|
        invariant |ledger| == |old(ledger)|
        invariant forall j :: 0 <= j < k ==>
                    ledger[j] == if old(ledger)[j].state == Placed then old(ledger)[j].(state := Committed)
                        else old(ledger)[j]
        invariant forall j :: k <= j < |ledger| ==> ledger[j] == old(ledger)[j]
      {
        if ledger[k].state == Placed {
          ledger := ledger[k := ledger[k].(state := Committed)];
        }
      }
    }

    /** Another process may do anything to the directory, unless the run is undisturbed. */
    method OtherProcess()
      requires Recorded()
      modifies this`fs, this`states, this`steps
      ensures Recorded()
      ensures if quiet then fs == old(fs) && states == old(states) && steps == old(steps)
              else states == old(states) + [fs] && steps == old(steps) + [Foreign]
    {
      if !quiet {
        fs := *;
        HistoryStep(states, steps, Foreign, fs);
        states, steps := states + [fs], steps + [Foreign];
      }
    }

    /** Remove what this run placed, last entry first. Each check and the unlink after it is one step. Whatever
        other processes do, every call of the rollback unlinks an entry that may be dropped at that moment. */
    method RollbackArtifacts(lockHeld: bool, ghost d0: Disk) returns (clean: bool)
      requires Recorded()
      requires quiet ==> Backed() && InTransaction(d0, fs, ledger, repairs) && ManifestLast(d0, ledger)
      modifies this`fs, this`states, this`steps
      ensures Recorded() && old(states) <= states && old(steps) <= steps
      ensures OnlyDrops(ledger, states, steps, |old(steps)|)
      ensures quiet ==> Backed()
      ensures quiet && lockHeld ==> clean && InTransaction(d0, fs, [], repairs)
      ensures !lockHeld ==> !clean && fs == old(fs) && steps == old(steps)
    {
      if !lockHeld { return false; }
      clean := true;
      assert ledger[..|ledger|] == ledger;
      ghost var first := |steps|;
      for k := |ledger| downto 0
        invariant Recorded() && old(states) <= states && old(steps) <= steps
        invariant OnlyDrops(ledger, states, steps, first)
        invariant quiet ==> Backed() && clean && InTransaction(d0, fs, ledger[..k], repairs)
      {
        var complains := RollbackEntry(k, d0, first);
        clean := clean && !complains;
      }
      assert ledger[..0] == [];
    }

    /** One entry of the ledger, after whatever another process did. */
    method RollbackEntry(k: nat, ghost d0: Disk, ghost first: nat) returns (complains: bool)
      requires Recorded() && k < |ledger| && first <= |steps| && OnlyDrops(ledger, states, steps, first)
      requires quiet ==> Backed() && InTransaction(d0, fs, ledger[..k + 1], repairs) && ManifestLast(d0, ledger)
      modifies this`fs, this`states, this`steps
      ensures Recorded() && old(states) <= states && old(steps) <= steps && OnlyDrops(ledger, states, steps, first)
      ensures quiet ==> Backed() && !complains && InTransaction(d0, fs, ledger[..k], repairs)
    {
      OtherProcess();
      ghost var between, moment := steps, states;
      assert OnlyDrops(ledger, moment, between, first);
      var e := ledger[k];
      var drops;
      drops, complains := Verdict(fs, e);
      if quiet { RollbackStep(d0, fs, source, ledger, repairs, k, drops, complains); }
      hide InTransaction; hide ManifestLast; hide LedgerFits;
      if drops {
        assert DropsEntry(ledger, fs, UnlinkFile(e.name));
        Call(UnlinkFile(e.name), Unlink(fs, e.name));
      }
    }

    /** What rollback decides about one entry: drop the name, leave it, or leave it and complain. */
    method Verdict(d: Disk, e: Entry) returns (drops: bool, complains: bool)
      ensures drops <==> MayDrop(d, e)
      ensures complains <==> !MayDrop(d, e) && (e.state == PlacementStarted || e.state == Placed) && e.name in d.names
    {
      if e.state == Prepared || e.state == Committed { return false, false; }
      if e.name !in d.names { return false, false; }
      var node := NodeAt(d, e.name);
      if node.None? || !node.value.regular { return false, true; }
      if d.names[e.name] != e.inode { return false, true; }
      if e.state == PlacementStarted { return true, false; }
      if node.value.mode != IMMUTABLE { return false, true; }
      if node.value.content != e.content { return false, true; }
      return true, false;
    }

    /** Give every repaired file its recorded mode back, last repair first. Whatever other processes do, every
        call changes the mode of a recorded file, still linked under its name with the recorded fingerprint. The
        entries `left` are those that the rollback before it has not undone. */
    method RestoreModes(lockHeld: bool, ghost d0: Disk, ghost left: seq<Entry>) returns (clean: bool)
      requires Recorded()
      requires quiet ==> Backed() && InTransaction(d0, fs, left, repairs)
      modifies this`fs, this`states, this`steps
      ensures Recorded() && old(states) <= states && old(steps) <= steps
      ensures OnlyRestores(repairs, states, steps, |old(steps)|)
      ensures quiet ==> Backed()
      ensures quiet && lockHeld ==> clean && InTransaction(d0, fs, left, [])
      ensures !lockHeld ==> !clean && fs == old(fs) && steps == old(steps)
    {
      if !lockHeld { return false; }
      clean := true;
      assert repairs[..|repairs|] == repairs;
      ghost var first := |steps|;
      for k := |repairs| downto 0
        invariant Recorded() && old(states) <= states && old(steps) <= steps
        invariant OnlyRestores(repairs, states, steps, first)
        invariant quiet ==> Backed() && clean && InTransaction(d0, fs, left, repairs[..k])
      {
        OtherProcess();
        var r := repairs[k];
        if quiet { RestoreStep(d0, fs, left, repairs, k); }
        if MayRestore(fs, r) {
          if quiet { ChmodBacked(fs, source, r.inode, r.mode); }
          Call(ChangeMode(r.inode, r.mode), Chmod(fs, r.inode, r.mode));
        } else {
          clean := false;
        }
      }
      assert repairs[..0] == [];
    }

    /** Remove the directory again if this run made it and it is empty. */
    method RemoveDestination(lockHeld: bool, dirId: nat) returns (clean: bool)
      requires Backed()
      modifies this`fs, this`states, this`steps
      ensures Backed() && old(states) <= states && old(steps) <= steps
      ensures clean <==> lockHeld && old(fs).exists_ && old(fs).dirId == dirId && old(fs).names == map[]
      ensures fs == if clean then old(fs).(exists_ := false) else old(fs)
    {
      if !lockHeld || !fs.exists_ || fs.dirId != dirId { return false; }
      if MANIFEST in fs.names { return false; }
      if fs.names != map[] { return false; }
      BackedCall(RemoveDirectory, fs.(exists_ := false));
      clean := true;
    }

    /** One file of the forward loop: skip it, repair its mode, refuse a conflict, or copy it. */
    method PlaceOne(ghost d0: Disk, k: nat, mtime: nat) returns (ok: bool)
      requires Release(source, packages) && k <= |packages| && MANIFEST !in d0.names
      requires Backed() && Forward(d0, fs, ledger, repairs, source, packages, k)
      modifies this`fs, this`ledger, this`repairs, this`states, this`steps
      ensures Backed() && old(states) <= states && old(steps) <= steps
      ensures ok ==> Forward(d0, fs, ledger, repairs, source, packages, k + 1)
      ensures InTransaction(d0, fs, ledger, repairs) && ManifestLast(d0, ledger)
    {
      var name := Files(packages)[k];
      ghost var b, entries, fixes := fs, ledger, repairs;
      var fails := Fault();
      if fails { return false; }
      if name in fs.names {
        if SameFile(fs, name, source[name]) {
          return true;
        }
        if !SameContent(fs, name, source[name]) { return false; }
        MutableIsOld(d0, fs, ledger, repairs, name, source[name]);
        ok := RepairMode(name);
        RepairKeepsTransaction(d0, b, fs, ledger, fixes, repairs, name);
        if ok { ForwardRepair(d0, b, fs, ledger, fixes, repairs, source, packages, k); }
      } else {
        PackagesPlaced(d0, fs, ledger, repairs, source, packages, k);
        NameIsNew(d0, fs, ledger, repairs, source, packages, k);
        ok := CopyVerified(name, mtime);
        CopyKeepsTransaction(d0, b, fs, entries, ledger, repairs, name, source[name]);
        if ok { ForwardCopy(d0, b, fs, entries, ledger, repairs, source, packages, k, mtime); }
      }
    }
  }

  // ----- the forward loop -----

  ghost predicate Release(source: map<string, nat>, packages: seq<string>) {
    && MANIFEST !in packages && MANIFEST in source
    && (forall n :: n in packages ==> n in source)
    && (forall n :: n in source ==> n == MANIFEST || n in packages)
  }

  /** Release files in placement order: the packages, then the manifest. */
  function Files(packages: seq<string>): (files: seq<string>)
    ensures |files| == |packages| + 1 && files[|packages|] == MANIFEST
    ensures forall k :: 0 <= k < |packages| ==> files[k] == packages[k]
  {
    packages + [MANIFEST]
  }

  /** What the forward loop has established when it reaches file k. */
  ghost predicate Forward(d0: Disk, d: Disk, ledger: seq<Entry>, repairs: seq<Repair>, source: map<string, nat>,
                          packages: seq<string>, k: nat)
    requires k <= |packages| + 1
  {
    && InTransaction(d0, d, ledger, repairs)
    && (forall j :: 0 <= j < k ==>
          Files(packages)[j] in source && SameFile(d, Files(packages)[j], source[Files(packages)[j]]))
    && (forall i :: 0 <= i < |ledger| ==> ledger[i].state == Placed && ledger[i].name in d.names)
    && (forall i :: 0 <= i < |ledger| && ledger[i].name == MANIFEST ==> i == |ledger| - 1 && k == |packages| + 1)
  }

  lemma MutableIsOld(d0: Disk, d: Disk, ledger: seq<Entry>, repairs: seq<Repair>, name: string, content: nat)
    requires InTransaction(d0, d, ledger, repairs) && SameContent(d, name, content) && !SameFile(d, name, content)
    ensures name in d0.names
  {
    assert forall k :: 0 <= k < |ledger| ==> EntryFits(d0, d, ledger[k]);
    assert name !in d0.names ==> Owned(ledger, name, d.names[name]);
  }

  lemma PackagesPlaced(d0: Disk, d: Disk, ledger: seq<Entry>, repairs: seq<Repair>, source: map<string, nat>,
                       packages: seq<string>, k: nat)
    requires Release(source, packages) && k <= |packages| && Forward(d0, d, ledger, repairs, source, packages, k)
    ensures Files(packages)[k] == MANIFEST ==> forall n :: n in source && n != MANIFEST ==> SameContent(d, n, source[n])
  {
    assert k < |packages| ==> packages[k] in packages;
    if Files(packages)[k] == MANIFEST {
      forall n | n in source && n != MANIFEST ensures SameContent(d, n, source[n]) {
        var j :| 0 <= j < |packages| && packages[j] == n;
        assert Files(packages)[j] == n;
      }
    }
  }

  lemma NameIsNew(d0: Disk, d: Disk, ledger: seq<Entry>, repairs: seq<Repair>, source: map<string, nat>,
                  packages: seq<string>, k: nat)
    requires Release(source, packages) && k <= |packages| && Forward(d0, d, ledger, repairs, source, packages, k)
    requires Files(packages)[k] !in d.names
    ensures forall i :: 0 <= i < |ledger| ==> ledger[i].name != Files(packages)[k]
    ensures Files(packages)[k] in source
  {
    assert k < |packages| ==> packages[k] in packages;
  }

  lemma ForwardRepair(d0: Disk, b: Disk, d: Disk, ledger: seq<Entry>, fixes: seq<Repair>, repairs: seq<Repair>,
                      source: map<string, nat>, packages: seq<string>, k: nat)
    requires Release(source, packages) && k <= |packages| && Forward(d0, b, ledger, fixes, source, packages, k) &&
             InTransaction(d0, d, ledger, repairs)
    requires var name := Files(packages)[k];
             name in source && SameContent(b, name, source[name]) && d == Chmod(b, b.names[name], IMMUTABLE)
    requires MANIFEST !in d0.names && Files(packages)[k] in d0.names
    ensures Forward(d0, d, ledger, repairs, source, packages, k + 1)
  {
    assert Files(packages)[k] != MANIFEST;
  }

  lemma ForwardCopy(d0: Disk, b: Disk, d: Disk, entries: seq<Entry>, ledger: seq<Entry>, repairs: seq<Repair>,
                    source: map<string, nat>, packages: seq<string>, k: nat, mtime: nat)
    requires Release(source, packages) && k <= |packages| && Forward(d0, b, entries, repairs, source, packages, k) &&
             InTransaction(d0, d, ledger, repairs)
    requires var name := Files(packages)[k];
             name in source && name !in b.names && LeftEntry(b, d, entries, ledger, name, source[name], mtime, Placed,
                 true)
    ensures Forward(d0, d, ledger, repairs, source, packages, k + 1)
  {
    assert Sound(b);
    hide InTransaction;
    var name := Files(packages)[k];
    assert k < |packages| ==> packages[k] in packages;
    forall j | 0 <= j < k ensures SameFile(d, Files(packages)[j], source[Files(packages)[j]]) {
      assert SameFile(b, Files(packages)[j], source[Files(packages)[j]]);
    }
  }

  // ----- mode repairs -----

  lemma ChmodBacked(d: Disk, source: map<string, nat>, inode: Inode, mode: nat)
    requires inode in d.nodes && ManifestBacked(d, source)
    ensures ManifestBacked(Chmod(d, inode, mode), source)
  {
    if MANIFEST in d.names {
      forall n | n in source ensures SameContent(Chmod(d, inode, mode), n, source[n]) {
        assert SameContent(d, n, source[n]);
      }
    }
  }

  ghost predicate RepairLeaves(b: Disk, d: Disk, repairs: seq<Repair>, repairs': seq<Repair>, name: string)
    requires name in b.names && b.names[name] in b.nodes
  {
    var inode := b.names[name];
    var node := b.nodes[inode];
    || (d == b && repairs' == repairs)
    || (node.regular && repairs' == repairs + [Repair(name, inode, node.content, node.mtime, node.mode)] &&
        (d == b || d == Chmod(b, inode, IMMUTABLE)))
  }

  lemma RepairKeepsTransaction(d0: Disk, b: Disk, d: Disk, ledger: seq<Entry>, repairs: seq<Repair>,
                               repairs': seq<Repair>, name: string)
    requires InTransaction(d0, b, ledger, repairs) && name in d0.names
    requires RepairLeaves(b, d, repairs, repairs', name)
    ensures InTransaction(d0, d, ledger, repairs')
  {
    var inode := b.names[name];
    var node := b.nodes[inode];
    var r := Repair(name, inode, node.content, node.mtime, node.mode);
    assert inode == d0.names[name] && inode in d0.nodes && inode < d0.next;
    UndoneKeeps(b.nodes, repairs, inode);
    RepairIsUndone(b.nodes, repairs, r, IMMUTABLE);
    forall k | 0 <= k < |ledger| ensures EntryFits(d0, d, ledger[k]) { assert EntryFits(d0, b, ledger[k]); }
  }

  // ----- rolling back -----

  predicate MayDrop(d: Disk, e: Entry) {
    && e.name in d.names && d.names[e.name] == e.inode && e.inode in d.nodes && d.nodes[e.inode].regular
    && (e.state == PlacementStarted ||
        (e.state == Placed && d.nodes[e.inode].mode == IMMUTABLE && d.nodes[e.inode].content == e.content))
  }

  /** From step `first` on, the run only unlinks entries of its ledger that it may drop at that moment. */
  ghost predicate OnlyDrops(ledger: seq<Entry>, states: seq<Disk>, steps: seq<Step>, first: nat)
    requires |states| == |steps| + 1
  {
    forall k :: first <= k < |steps| && !steps[k].Foreign? ==> DropsEntry(ledger, states[k], steps[k])
  }

  ghost predicate DropsEntry(ledger: seq<Entry>, d: Disk, step: Step) {
    exists j :: 0 <= j < |ledger| && step == UnlinkFile(ledger[j].name) && MayDrop(d, ledger[j])
  }

  /** The recorded file is still linked under its name, and its fingerprint is the recorded one. */
  predicate MayRestore(d: Disk, r: Repair) {
    && r.name in d.names && d.names[r.name] == r.inode && r.inode in d.nodes
    && d.nodes[r.inode].regular && d.nodes[r.inode].content == r.content && d.nodes[r.inode].mtime == r.mtime
  }

  /** From step `first` on, the run only gives recorded files their recorded modes. */
  ghost predicate OnlyRestores(repairs: seq<Repair>, states: seq<Disk>, steps: seq<Step>, first: nat)
    requires |states| == |steps| + 1
  {
    forall k :: first <= k < |steps| && !steps[k].Foreign? ==> RestoresFile(repairs, states[k], steps[k])
  }

  ghost predicate RestoresFile(repairs: seq<Repair>, d: Disk, step: Step) {
    exists j :: 0 <= j < |repairs| && step == ChangeMode(repairs[j].inode, repairs[j].mode) && MayRestore(d, repairs[j])
  }

  /** A name that rollback may have removed: an uncommitted entry of this run, linked to the very file it placed. */
  ghost predicate Removable(ledger: seq<Entry>, r: (string, Inode)) {
    exists k :: 0 <= k < |ledger| && ledger[k].name == r.0 && ledger[k].inode == r.1 &&
                (ledger[k].state == PlacementStarted || ledger[k].state == Placed)
  }

  /** The manifest was not there before, and only the last entry can be the manifest. */
  ghost predicate ManifestLast(d0: Disk, ledger: seq<Entry>) {
    (ledger != [] ==> MANIFEST !in d0.names) && forall k :: 0 <= k < |ledger| - 1 ==> ledger[k].name != MANIFEST
  }

  /** Nothing in the ledger was there when the run began. */
  ghost predicate LedgerNew(d0: Disk, ledger: seq<Entry>) {
    forall k :: 0 <= k < |ledger| ==> ledger[k].name !in d0.names && ledger[k].inode !in d0.nodes
  }

  lemma TransactionLedgerNew(d0: Disk, d: Disk, ledger: seq<Entry>, repairs: seq<Repair>)
    requires InTransaction(d0, d, ledger, repairs)
    ensures LedgerNew(d0, ledger)
  {
    forall k | 0 <= k < |ledger| ensures ledger[k].name !in d0.names && ledger[k].inode !in d0.nodes {
      assert EntryFits(d0, d, ledger[k]);
    }
  }

  /** The link of a name to a file is none of the rollback's business: it was there before, the file was, or no
      uncommitted entry of the ledger placed that very file under that name. */
  ghost predicate Spared(d0: Disk, ledger: seq<Entry>, name: string, inode: Inode) {
    name in d0.names || inode in d0.nodes || !Removable(ledger, (name, inode))
  }

  predicate Linked(d: Disk, name: string, inode: Inode) {
    name in d.names && d.names[name] == inode
  }

  /** Whatever other processes do between its calls, the rollback removes no link that is not its business, and no
      call of its changes a file: such a link is there at the end unless another process has removed it. */
  lemma {:induction false} RollbackRemovesOnlyOwn(d0: Disk, ledger: seq<Entry>, states: seq<Disk>, steps: seq<Step>,
                                                  first: nat, last: nat, name: string, inode: Inode)
    requires History(states, steps) && OnlyDrops(ledger, states, steps, first) && LedgerNew(d0, ledger)
    requires first <= last <= |steps| && Spared(d0, ledger, name, inode) && Linked(states[first], name, inode)
    requires forall k :: first <= k < last && steps[k].Foreign? && Linked(states[k], name, inode) ==>
             Linked(states[k + 1], name, inode)
    ensures Linked(states[last], name, inode)
    ensures forall k :: first <= k < last && !steps[k].Foreign? ==> states[k + 1].nodes == states[k].nodes
    decreases last
  {
    if first < last {
      var k := last - 1;
      RollbackRemovesOnlyOwn(d0, ledger, states, steps, first, k, name, inode);
      assert Leads(states[k], steps[k], states[k + 1]);
      if !steps[k].Foreign? {
        var j :| 0 <= j < |ledger| && steps[k] == UnlinkFile(ledger[j].name) && MayDrop(states[k], ledger[j]);
        assert Removable(ledger, (ledger[j].name, ledger[j].inode));
      }
    }
  }

  lemma OwnedByPrefix(ledger: seq<Entry>, k: nat, n: string, inode: Inode)
    requires k < |ledger| && Owned(ledger[..k + 1], n, inode)
    requires n != ledger[k].name || inode != ledger[k].inode ||
             !(ledger[k].state == PlacementStarted || ledger[k].state == Placed)
    ensures Owned(ledger[..k], n, inode)
  {
    var before, after := ledger[..k + 1], ledger[..k];
    var j :| 0 <= j < |before| && before[j].name == n && before[j].inode == inode &&
        (before[j].state == PlacementStarted || before[j].state == Placed);
    assert after[j] == before[j];
  }

  lemma PrefixFits(d0: Disk, d: Disk, d': Disk, ledger: seq<Entry>, k: nat)
    requires k < |ledger| && LedgerFits(d0, d, ledger[..k + 1])
    requires d' == d || d' == Unlink(d, ledger[k].name)
    ensures LedgerFits(d0, d', ledger[..k])
  {
    var before, after := ledger[..k + 1], ledger[..k];
    forall j | 0 <= j < |after| ensures EntryFits(d0, d', after[j]) {
      assert after[j] == before[j] && EntryFits(d0, d, before[j]);
    }
    forall i, j | 0 <= i < j < |after| ensures after[i].name != after[j].name {
      assert after[i] == before[i] && after[j] == before[j];
    }
  }

  lemma RollbackStep(d0: Disk, d: Disk, source: map<string, nat>, ledger: seq<Entry>, repairs: seq<Repair>, k: nat,
                     drops: bool, complains: bool)
    requires k < |ledger| && InTransaction(d0, d, ledger[..k + 1], repairs) && ManifestLast(d0, ledger)
    requires drops <==> MayDrop(d, ledger[k])
    requires complains <==>
               !MayDrop(d, ledger[k]) && ledger[k].name in d.names &&
               (ledger[k].state == PlacementStarted || ledger[k].state == Placed)
    ensures !complains
    ensures var d' := if drops then Unlink(d, ledger[k].name) else d; InTransaction(d0, d', ledger[..k], repairs)
    ensures drops ==> ManifestBacked(Unlink(d, ledger[k].name), source)
  {
    var e, before, after := ledger[k], ledger[..k + 1], ledger[..k];
    assert before[k] == e && EntryFits(d0, d, e);
    var d' := if drops then Unlink(d, e.name) else d;
    PrefixFits(d0, d, d', ledger, k);
    forall n | n in d'.names && n !in d0.names ensures Owned(after, n, d'.names[n]) {
      assert Owned(before, n, d.names[n]);
      OwnedByPrefix(ledger, k, n, d.names[n]);
    }
    NoManifestBefore(d0, d', ledger, repairs, k);
  }

  lemma NoManifestBefore(d0: Disk, d: Disk, ledger: seq<Entry>, repairs: seq<Repair>, k: nat)
    requires k < |ledger| && ManifestLast(d0, ledger)
    requires forall n :: n in d.names && n !in d0.names ==> Owned(ledger[..k], n, d.names[n])
    ensures MANIFEST !in d.names
  {
    var after := ledger[..k];
    forall j | 0 <= j < |after| ensures after[j].name != MANIFEST { assert after[j] == ledger[j]; }
  }

  lemma RestoreStep(d0: Disk, d: Disk, left: seq<Entry>, repairs: seq<Repair>, k: nat)
    requires k < |repairs| && InTransaction(d0, d, left, repairs[..k + 1])
    ensures var r := repairs[k];
            && r.inode in d.nodes && r.name in d.names && d.names[r.name] == r.inode
            && d.nodes[r.inode].regular && d.nodes[r.inode].content == r.content && d.nodes[r.inode].mtime == r.mtime
            && InTransaction(d0, Chmod(d, r.inode, r.mode), left, repairs[..k])
  {
    var r, before, after := repairs[k], repairs[..k + 1], repairs[..k];
    assert before[k] == r && before[..k] == after && r in before;
    UndoneKeeps(d.nodes, before, r.inode);
    var d' := Chmod(d, r.inode, r.mode);
    assert Undone(d.nodes, before) == Undone(d'.nodes, after);
    forall x | x in after ensures x in before {}
  }

  /** When a stage of a copy may be seen: the temporary name is nobody's, the manifest comes last. */
  ghost predicate CopyMayAppear(b: Disk, source: map<string, nat>, temp: string, name: Option<string>, node: Node) {
    && Sound(b) && ManifestBacked(b, source) && temp !in b.names && temp !in source && MANIFEST in source
    && (name.Some? ==> name.value !in b.names && name.value != temp)
    && (name == Some(MANIFEST) ==>
          (node.regular && node.content == source[MANIFEST] &&
           forall n :: n in source && n != MANIFEST ==> SameContent(b, n, source[n])))
  }

  lemma CopyStages(b: Disk, temp: string, name: string)
    ensures forall node :: Create(b, temp, node) == Copying(b, temp, None, node)
    ensures forall node, node' :: SetNode(Copying(b, temp, None, node), b.next, node') == Copying(b, temp, None, node')
    ensures forall node :: Link(Copying(b, temp, None, node), name, b.next) == Copying(b, temp, Some(name), node)
  {
  }

  lemma CopyStageBacked(b: Disk, source: map<string, nat>, temp: string, name: Option<string>, node: Node)
    requires CopyMayAppear(b, source, temp, name, node)
    ensures ManifestBacked(Copying(b, temp, name, node), source)
  {
    CopyBacked(b, Copying(b, temp, name, node), source, b.next);
  }

  lemma CopyEndBacked(b: Disk, source: map<string, nat>, temp: string, name: Option<string>, node: Node)
    requires CopyMayAppear(b, source, temp, name, node)
    ensures ManifestBacked(Copied(b, name, node), source)
  {
    CopyBacked(b, Copied(b, name, node), source, b.next);
  }

  lemma {:induction false} UnusedName(taken: set<string>) returns (name: string)
    ensures name !in taken && forall n :: n in taken ==> |n| < |name|
  {
    if taken == {} {
      name := "x";
    } else {
      var n :| n in taken;
      var rest := UnusedName(taken - {n});
      name := if |n| < |rest| then rest else n + "x";
      assert forall m :: m in taken ==> m == n || m in taken - {n};
    }
  }
}
