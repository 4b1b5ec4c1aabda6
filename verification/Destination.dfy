/** A release directory: names, the files they are linked to, and the states a transaction passes through. */
module Destination {
  import opened Options

  const MANIFEST := "release-manifest.json"
  const IMMUTABLE := 0x124 // octal 444

  type Inode = nat

  /** Contents are compared by size and hash, so one number stands for both. */
  datatype Node = Node(regular: bool, content: nat, mode: nat, mtime: nat)

  datatype Disk = Disk(exists_: bool, dirId: nat, names: map<string, Inode>, nodes: map<Inode, Node>, next: Inode)

  ghost predicate Sound(d: Disk) {
    && (forall n :: n in d.names ==> d.names[n] in d.nodes)
    && (forall i :: i in d.nodes ==> i < d.next)
    && (!d.exists_ ==> d.names == map[])
  }

  /** What an observer of the directory can tell: is it there, and which names have which content and mode. */
  ghost function View(d: Disk): Option<map<string, (nat, nat)>>
    requires Sound(d)
  {
    if d.exists_ then Some(map n | n in d.names :: (d.nodes[d.names[n]].content, d.nodes[d.names[n]].mode)) else None
  }

  function NodeAt(d: Disk, name: string): Option<Node> {
    if name in d.names && d.names[name] in d.nodes then Some(d.nodes[d.names[name]]) else None
  }

  predicate SameContent(d: Disk, name: string, content: nat) {
    NodeAt(d, name).Some? && NodeAt(d, name).value.regular && NodeAt(d, name).value.content == content
  }

  predicate SameFile(d: Disk, name: string, content: nat) {
    SameContent(d, name, content) && NodeAt(d, name).value.mode == IMMUTABLE
  }

  /** An active manifest is backed by every file of the release. */
  ghost predicate ManifestBacked(d: Disk, source: map<string, nat>) {
    MANIFEST in d.names ==> forall n :: n in source ==> SameContent(d, n, source[n])
  }

  // ----- single operations -----

  function Link(d: Disk, name: string, inode: Inode): Disk {
    d.(names := d.names[name := inode])
  }

  function Unlink(d: Disk, name: string): Disk {
    d.(names := d.names - {name})
  }

  /** A new file under a new name, as mkstemp makes it. */
  function Create(d: Disk, name: string, node: Node): Disk {
    d.(names := d.names[name := d.next], nodes := d.nodes[d.next := node], next := d.next + 1)
  }

  function SetNode(d: Disk, inode: Inode, node: Node): Disk {
    d.(nodes := d.nodes[inode := node])
  }

  function Chmod(d: Disk, inode: Inode, mode: nat): Disk
    requires inode in d.nodes
  {
    SetNode(d, inode, d.nodes[inode].(mode := mode))
  }

  // ----- the calls of a run, one after the other -----

  /** One file-system call of the run, or whatever another process did in between. */
  datatype Step =
    | MakeDirectory(dirId: nat)
    | CreateFile(name: string, node: Node)
    | WriteFile(inode: Inode, content: nat)
    | ChangeMode(inode: Inode, mode: nat)
    | LinkFile(name: string, inode: Inode)
    | UnlinkFile(name: string)
    | RemoveDirectory
    | Foreign

  ghost predicate Leads(d: Disk, step: Step, d': Disk) {
    match step
    case MakeDirectory(dirId) => !d.exists_ && d' == d.(exists_ := true, dirId := dirId)
    case CreateFile(name, node) => name !in d.names && d' == Create(d, name, node)
    case WriteFile(inode, content) => inode in d.nodes && d' == SetNode(d, inode, d.nodes[inode].(content := content))
    case ChangeMode(inode, mode) => inode in d.nodes && d' == Chmod(d, inode, mode)
    case LinkFile(name, inode) => name !in d.names && inode in d.nodes && d' == Link(d, name, inode)
    case UnlinkFile(name) => name in d.names && d' == Unlink(d, name)
    case RemoveDirectory => d.exists_ && d.names == map[] && d' == d.(exists_ := false)
    case Foreign => true
  }

  /** All states of the directory, from the first to the last, with the step between each and the next. */
  ghost predicate History(states: seq<Disk>, steps: seq<Step>) {
    |states| == |steps| + 1 && forall k :: 0 <= k < |steps| ==> Leads(states[k], steps[k], states[k + 1])
  }

  lemma HistoryStep(states: seq<Disk>, steps: seq<Step>, step: Step, d: Disk)
    requires History(states, steps) && Leads(states[|steps|], step, d)
    ensures History(states + [d], steps + [step])
  {
    var states', steps' := states + [d], steps + [step];
    forall k | 0 <= k < |steps'| ensures Leads(states'[k], steps'[k], states'[k + 1]) {
      if k < |steps| { assert Leads(states[k], steps[k], states[k + 1]); }
    }
  }
}
