/**
 * The messages and the recursive tree walk of fss (`walk` in walk.rs).
 *
 * The file system is modelled as a value: every path that `walk` is given
 * names a `Node`, which says what `symlink_metadata` and `read_dir` make of
 * it. The source visits the entries of one call in parallel; the model
 * emits their messages in entry order, which is one of the orders the
 * channel can deliver.
 */
module Walk {
  import opened Wrappers
  import opened Paths

  /** The platform identity of a stored file; entries with equal ids are hard links of one file. */
  datatype UniqueId = UniqueId(device: nat, inode: nat)

  /** `Error`: the two ways a path can fail. */
  datatype Error = NoMetadataForPath(path: Path) | CouldNotReadDir(path: Path)

  /** `Message`: what the walker sends to the receiver. */
  datatype Message =
    | SizeEntry(id: Option<UniqueId>, path: Path, size: nat)
    | ErrorMessage(error: Error)

  /** What a path names, as far as `walk` can see it. */
  datatype Node =
    | Unstatable                                // `symlink_metadata` fails
    | NonDirectory(id: Option<UniqueId>, size: nat)  // a file, a symbolic link (not followed), ...
    | UnreadableDirectory                       // `is_dir`, but `read_dir` fails
    | Directory(entries: seq<DirEntry>)

  /** One item of a directory listing; `BadEntry` is an item whose read fails. */
  datatype DirEntry = BadEntry | Entry(name: string, node: Node)

  /** A path handed to `walk`, together with what it names. */
  datatype Item = Item(path: Path, node: Node)

  // ---------------------------------------------------------------------------
  // Sizes of trees, for termination only.

  function NodeSize(n: Node): nat {
    match n
    case Directory(es) => 1 + EntriesSize(es)
    case _ => 1
  }

  function EntrySize(e: DirEntry): nat {
    match e
    case BadEntry => 1
    case Entry(_, n) => 1 + NodeSize(n)
  }

  function EntriesSize(es: seq<DirEntry>): nat {
    if es == [] then 0 else EntriesSize(es[..|es| - 1]) + EntrySize(es[|es| - 1])
  }

  function ItemsSize(items: seq<Item>): nat {
    if items == [] then 0 else ItemsSize(items[..|items| - 1]) + NodeSize(items[|items| - 1].node)
  }

  // ---------------------------------------------------------------------------
  // Listing a directory.

  /** The child a listing item contributes: its path below `p`, or nothing for an unreadable item. */
  function ChildOf(p: Path, e: DirEntry): seq<Item> {
    match e
    case BadEntry => []
    case Entry(name, n) => [Item(Join(p, name), n)]
  }

  /**
   * The children of directory `p`: `child_entries.flatten()` drops the
   * items that cannot be read and keeps the others, in listing order, each
   * as `p` joined with its name.
   */
  function Children(p: Path, es: seq<DirEntry>): (r: seq<Item>)
    ensures |r| <= |es|
    ensures ItemsSize(r) <= EntriesSize(es)
  {
    if es == [] then []
    else
      var init := es[..|es| - 1];
      ItemsSizeAppend(Children(p, init), ChildOf(p, es[|es| - 1]));
      Children(p, init) + ChildOf(p, es[|es| - 1])
  }

  lemma {:induction false} ItemsSizeAppend(a: seq<Item>, b: seq<Item>)
    ensures ItemsSize(a + b) == ItemsSize(a) + ItemsSize(b)
    decreases |b|
  {
    if b == [] {
      assert a + b == a;
    } else {
      ItemsSizeAppend(a, b[..|b| - 1]);
      ItemsSizeSnoc(a, b);
    }
  }

  lemma ItemsSizeSnoc(a: seq<Item>, b: seq<Item>)
    requires b != []
    ensures ItemsSize(a + b) == ItemsSize(a + b[..|b| - 1]) + NodeSize(b[|b| - 1].node)
  {
    assert (a + b)[..|a + b| - 1] == a + b[..|b| - 1];
    assert (a + b)[|a + b| - 1] == b[|b| - 1];
  }


  /** Item `i` of the listing `es` of `p` is readable and becomes the child `it`. */
  predicate ChildAt(p: Path, es: seq<DirEntry>, i: int, it: Item) {
    0 <= i < |es| && es[i].Entry? && it == Item(Join(p, es[i].name), es[i].node)
  }

  /** Every child comes from a readable listing item. */
  lemma {:induction false} ChildrenSound(p: Path, es: seq<DirEntry>, it: Item)
    requires it in Children(p, es)
    ensures exists i :: ChildAt(p, es, i, it)
    decreases |es|
  {
    var init, last := es[..|es| - 1], es[|es| - 1];
    if it in ChildOf(p, last) {
      assert ChildAt(p, es, |es| - 1, it);
    } else {
      ChildrenSound(p, init, it);
      var i :| ChildAt(p, init, i, it);
      assert ChildAt(p, es, i, it);
    }
  }

  /** Every readable listing item becomes a child. */
  lemma {:induction false} ChildrenComplete(p: Path, es: seq<DirEntry>, i: int, it: Item)
    requires ChildAt(p, es, i, it)
    ensures it in Children(p, es)
    decreases |es|
  {
    var init, last := es[..|es| - 1], es[|es| - 1];
    if i < |init| {
      assert ChildAt(p, init, i, it);
      ChildrenComplete(p, init, i, it);
    }
  }

  /** A child is exactly a readable listing item, joined to the directory's path. */
  lemma InChildren(p: Path, es: seq<DirEntry>, it: Item)
    ensures it in Children(p, es) <==> exists i :: ChildAt(p, es, i, it)
  {
    if it in Children(p, es) {
      ChildrenSound(p, es, it);
    }
    if exists i :: ChildAt(p, es, i, it) {
      var i :| ChildAt(p, es, i, it);
      ChildrenComplete(p, es, i, it);
    }
  }

  /** The loop of `walk` that collects the children of a directory it could list. */
  method ListChildren(p: Path, es: seq<DirEntry>) returns (children: seq<Item>)
    ensures children == Children(p, es)
  {
    children := [];
    for i := 0 to |es|
      invariant children == Children(p, es[..i])
    {
      assert es[..i + 1][..i] == es[..i];
      match es[i]
      case BadEntry =>
      case Entry(name, n) =>
        children := children + [Item(Join(p, name), n)];
    }
    assert es[..|es|] == es;
  }

  // ---------------------------------------------------------------------------
  // The walk.

  /**
   * `walk` on one path: metadata failure reports `NoMetadataForPath`; a
   * non-directory reports its id and size; a directory reports
   * `CouldNotReadDir` if it cannot be listed and is then walked with no
   * children, and otherwise its children are walked. A directory itself is
   * never sized. So a path that is not a readable directory sends exactly one
   * message, its own report, and an unreadable directory sends nothing from
   * beneath it.
   */
  function Visit(p: Path, n: Node): (r: seq<Message>)
    ensures !n.Directory? ==> r == [Report(p, n).value]
    decreases NodeSize(n), 0
  {
    match n
    case Unstatable => [ErrorMessage(NoMetadataForPath(p))]
    case NonDirectory(id, size) => [SizeEntry(id, p, size)]
    case UnreadableDirectory => [ErrorMessage(CouldNotReadDir(p))] + Walk([])
    case Directory(es) => Walk(Children(p, es))
  }

  /**
   * `walk` on a list of paths: the messages of each, one path after another.
   * A list of paths none of which is a readable directory sends one message
   * per path, its report, in the order of the list.
   */
  function Walk(items: seq<Item>): (r: seq<Message>)
    ensures (forall i :: 0 <= i < |items| ==> !items[i].node.Directory?) ==>
      |r| == |items| && forall i :: 0 <= i < |items| ==> r[i] == Report(items[i].path, items[i].node).value
    decreases ItemsSize(items), 1
  {
    if items == [] then []
    else
      var last := items[|items| - 1];
      Walk(items[..|items| - 1]) + Visit(last.path, last.node)
  }

  lemma {:induction false} WalkAppend(a: seq<Item>, b: seq<Item>)
    ensures Walk(a + b) == Walk(a) + Walk(b)
    decreases |b|
  {
    if b == [] {
      assert a + b == a;
    } else {
      var b' := b[..|b| - 1];
      WalkAppend(a, b');
      WalkSnoc(a, b);
      var last := b[|b| - 1];
      AppendAssoc(Walk(a), Walk(b'), Visit(last.path, last.node));
    }
  }

  lemma WalkSnoc(a: seq<Item>, b: seq<Item>)
    requires b != []
    ensures Walk(a + b) == Walk(a + b[..|b| - 1]) + Visit(b[|b| - 1].path, b[|b| - 1].node)
  {
    assert (a + b)[..|a + b| - 1] == a + b[..|b| - 1];
    assert (a + b)[|a + b| - 1] == b[|b| - 1];
  }


  lemma {:induction false} ChildrenAppend(p: Path, a: seq<DirEntry>, b: seq<DirEntry>)
    ensures Children(p, a + b) == Children(p, a) + Children(p, b)
    decreases |b|
  {
    if b == [] {
      assert a + b == a;
    } else {
      var b' := b[..|b| - 1];
      ChildrenAppend(p, a, b');
      ChildrenSnoc(p, a, b);
      AppendAssoc(Children(p, a), Children(p, b'), ChildOf(p, b[|b| - 1]));
    }
  }

  lemma AppendAssoc<T>(x: seq<T>, y: seq<T>, z: seq<T>)
    ensures x + y + z == x + (y + z)
  {
  }

  lemma ChildrenSnoc(p: Path, a: seq<DirEntry>, b: seq<DirEntry>)
    requires b != []
    ensures Children(p, a + b) == Children(p, a + b[..|b| - 1]) + ChildOf(p, b[|b| - 1])
  {
    assert (a + b)[..|a + b| - 1] == a + b[..|b| - 1];
    assert (a + b)[|a + b| - 1] == b[|b| - 1];
  }


  /** `flatten` drops an unreadable listing item wherever it stands, and nothing is reported for it. */
  lemma BadEntryIsDropped(p: Path, a: seq<DirEntry>, b: seq<DirEntry>)
    ensures Children(p, a + [BadEntry] + b) == Children(p, a + b)
    ensures Visit(p, Directory(a + [BadEntry] + b)) == Visit(p, Directory(a + b))
  {
    assert Children(p, [BadEntry]) == [] by {
      assert [BadEntry][..0] == [];
    }
    ChildrenAppend(p, a, [BadEntry]);
    assert Children(p, a) + [] == Children(p, a);
    ChildrenAppend(p, a + [BadEntry], b);
    ChildrenAppend(p, a, b);
  }

  // ---------------------------------------------------------------------------
  // What the walk reports: a reference description by reachability.

  /** Node `m` is found at path `q` by walking from path `p` naming `n`. */
  predicate Reachable(p: Path, n: Node, q: Path, m: Node)
    decreases n
  {
    (p == q && n == m)
    || (n.Directory? &&
          exists i :: 0 <= i < |n.entries| && n.entries[i].Entry?
            && Reachable(Join(p, n.entries[i].name), n.entries[i].node, q, m))
  }

  /** The message a node at `q` sends on its own account; a readable directory sends none. */
  function Report(q: Path, m: Node): Option<Message> {
    match m
    case Unstatable => Some(ErrorMessage(NoMetadataForPath(q)))
    case NonDirectory(id, size) => Some(SizeEntry(id, q, size))
    case UnreadableDirectory => Some(ErrorMessage(CouldNotReadDir(q)))
    case Directory(_) => None
  }

  lemma {:induction false} InWalk(items: seq<Item>, msg: Message)
    ensures msg in Walk(items) <==> exists i :: 0 <= i < |items| && msg in Visit(items[i].path, items[i].node)
    decreases |items|
  {
    if items != [] {
      var init := items[..|items| - 1];
      InWalk(init, msg);
      if msg in Walk(items) && msg !in Visit(items[|items| - 1].path, items[|items| - 1].node) {
        var i :| 0 <= i < |init| && msg in Visit(init[i].path, init[i].node);
        assert items[i] == init[i];
      }
      forall i | 0 <= i < |items| - 1 && msg in Visit(items[i].path, items[i].node)
        ensures msg in Walk(init)
      {
        assert items[i] == init[i];
      }
    }
  }

  /** Every message comes from a node reachable from `p`, which names it as its own report. */
  lemma {:induction false} VisitSound(p: Path, n: Node, msg: Message) returns (q: Path, m: Node)
    requires msg in Visit(p, n)
    ensures Reachable(p, n, q, m) && Report(q, m) == Some(msg)
    decreases NodeSize(n)
  {
    if n.Directory? {
      var es := n.entries;
      var cs := Children(p, es);
      InWalk(cs, msg);
      var k :| 0 <= k < |cs| && msg in Visit(cs[k].path, cs[k].node);
      InChildren(p, es, cs[k]);
      var i :| ChildAt(p, es, i, cs[k]);
      ChildSmaller(es, i);
      q, m := VisitSound(cs[k].path, cs[k].node, msg);
    } else {
      q, m := p, n;
    }
  }

  /** Every node reachable from `p` that reports something has its report among the messages. */
  lemma {:induction false} VisitComplete(p: Path, n: Node, q: Path, m: Node)
    requires Reachable(p, n, q, m) && Report(q, m).Some?
    ensures Report(q, m).value in Visit(p, n)
    decreases NodeSize(n)
  {
    if !(p == q && n == m) {
      var es := n.entries;
      var i :| 0 <= i < |es| && es[i].Entry? && Reachable(Join(p, es[i].name), es[i].node, q, m);
      var it := Item(Join(p, es[i].name), es[i].node);
      assert ChildAt(p, es, i, it);
      InChildren(p, es, it);
      var cs := Children(p, es);
      var k :| 0 <= k < |cs| && cs[k] == it;
      ChildSmaller(es, i);
      VisitComplete(it.path, it.node, q, m);
      InWalk(cs, Report(q, m).value);
    }
  }

  /**
   * The walk visits everything reachable and nothing else: a message is
   * emitted from `p` exactly when some node reachable from `p` reports it.
   */
  lemma VisitReportsReachable(p: Path, n: Node, msg: Message)
    ensures msg in Visit(p, n) <==> exists q, m :: Reachable(p, n, q, m) && Report(q, m) == Some(msg)
  {
    if msg in Visit(p, n) {
      var q, m := VisitSound(p, n, msg);
    }
    forall q, m | Reachable(p, n, q, m) && Report(q, m) == Some(msg)
      ensures msg in Visit(p, n)
    {
      VisitComplete(p, n, q, m);
    }
  }

  lemma {:induction false} ChildSmaller(es: seq<DirEntry>, i: nat)
    requires i < |es| && es[i].Entry?
    ensures NodeSize(es[i].node) < NodeSize(Directory(es))
    decreases |es|
  {
    var init := es[..|es| - 1];
    assert NodeSize(Directory(es)) == 1 + EntriesSize(init) + EntrySize(es[|es| - 1]);
    if i < |es| - 1 {
      assert init[i] == es[i];
      ChildSmaller(init, i);
    }
  }

  // ---------------------------------------------------------------------------
  // What the walk reports: a reference count of files, failures and bytes.

  /** Numbers of non-directories, failed paths, and bytes of the non-directories. */
  datatype Tally = Tally(files: nat, failures: nat, bytes: nat) {
    function Plus(t: Tally): Tally {
      Tally(files + t.files, failures + t.failures, bytes + t.bytes)
    }

    lemma PlusAssoc(t: Tally, u: Tally)
      ensures Plus(t).Plus(u) == Plus(t.Plus(u))
    {
    }
  }

  function NodeTally(n: Node): Tally {
    match n
    case Unstatable => Tally(0, 1, 0)
    case NonDirectory(_, size) => Tally(1, 0, size)
    case UnreadableDirectory => Tally(0, 1, 0)
    case Directory(es) => EntriesTally(es)
  }

  function EntriesTally(es: seq<DirEntry>): Tally {
    if es == [] then Tally(0, 0, 0)
    else
      var e := es[|es| - 1];
      EntriesTally(es[..|es| - 1]).Plus(if e.Entry? then NodeTally(e.node) else Tally(0, 0, 0))
  }

  function ItemsTally(items: seq<Item>): Tally {
    if items == [] then Tally(0, 0, 0)
    else ItemsTally(items[..|items| - 1]).Plus(NodeTally(items[|items| - 1].node))
  }

  /** The same numbers, read off a list of messages. */
  function MessagesTally(msgs: seq<Message>): Tally {
    if msgs == [] then Tally(0, 0, 0)
    else
      var m := msgs[|msgs| - 1];
      MessagesTally(msgs[..|msgs| - 1]).Plus(MessageTally(m))
  }

  function MessageTally(m: Message): Tally {
    match m
    case SizeEntry(_, _, size) => Tally(1, 0, size)
    case ErrorMessage(_) => Tally(0, 1, 0)
  }

  lemma {:induction false} MessagesTallyAppend(a: seq<Message>, b: seq<Message>)
    ensures MessagesTally(a + b) == MessagesTally(a).Plus(MessagesTally(b))
    decreases |b|
  {
    if b == [] {
      assert a + b == a;
    } else {
      MessagesTallyAppend(a, b[..|b| - 1]);
      MessagesTallySnoc(a, b);
      MessagesTally(a).PlusAssoc(MessagesTally(b[..|b| - 1]), MessageTally(b[|b| - 1]));
    }
  }

  lemma MessagesTallySnoc(a: seq<Message>, b: seq<Message>)
    requires b != []
    ensures MessagesTally(a + b) == MessagesTally(a + b[..|b| - 1]).Plus(MessageTally(b[|b| - 1]))
  {
    assert (a + b)[..|a + b| - 1] == a + b[..|b| - 1];
    assert (a + b)[|a + b| - 1] == b[|b| - 1];
  }


  lemma {:induction false} ItemsTallyAppend(a: seq<Item>, b: seq<Item>)
    ensures ItemsTally(a + b) == ItemsTally(a).Plus(ItemsTally(b))
    decreases |b|
  {
    if b == [] {
      assert a + b == a;
    } else {
      ItemsTallyAppend(a, b[..|b| - 1]);
      ItemsTallySnoc(a, b);
      ItemsTally(a).PlusAssoc(ItemsTally(b[..|b| - 1]), NodeTally(b[|b| - 1].node));
    }
  }

  lemma ItemsTallySnoc(a: seq<Item>, b: seq<Item>)
    requires b != []
    ensures ItemsTally(a + b) == ItemsTally(a + b[..|b| - 1]).Plus(NodeTally(b[|b| - 1].node))
  {
    assert (a + b)[..|a + b| - 1] == a + b[..|b| - 1];
    assert (a + b)[|a + b| - 1] == b[|b| - 1];
  }


  lemma {:induction false} ChildrenTally(p: Path, es: seq<DirEntry>)
    ensures ItemsTally(Children(p, es)) == EntriesTally(es)
    decreases |es|
  {
    if es != [] {
      var init := es[..|es| - 1];
      ChildrenTally(p, init);
      ItemsTallyAppend(Children(p, init), ChildOf(p, es[|es| - 1]));
    }
  }

  /**
   * One message per non-directory and per failed path, and the sizes sent
   * add up to the bytes of the non-directories: nothing is reported twice
   * and nothing is lost, whatever the tree.
   */
  lemma {:induction false} VisitTally(p: Path, n: Node)
    ensures MessagesTally(Visit(p, n)) == NodeTally(n)
    decreases NodeSize(n), 0
  {
    match n
    case Unstatable =>
    case NonDirectory(_, _) =>
    case UnreadableDirectory =>
      assert [ErrorMessage(CouldNotReadDir(p))][..0] == [];
    case Directory(es) =>
      WalkTally(Children(p, es));
      ChildrenTally(p, es);
  }

  lemma {:induction false} WalkTally(items: seq<Item>)
    ensures MessagesTally(Walk(items)) == ItemsTally(items)
    decreases ItemsSize(items), 1
  {
    if items != [] {
      var init, last := items[..|items| - 1], items[|items| - 1];
      WalkTally(init);
      VisitTally(last.path, last.node);
      MessagesTallyAppend(Walk(init), Visit(last.path, last.node));
    }
  }

  /** The path a message is about. */
  function MessagePath(m: Message): Path {
    match m
    case SizeEntry(_, path, _) => path
    case ErrorMessage(e) => e.path
  }

  /**
   * Every message from `p` is about `p` or a path below it: a path that is
   * not a readable directory reports only on itself, and below a readable
   * directory every path is strictly longer and ends in a name.
   */
  lemma {:induction false} VisitStaysBelow(p: Path, n: Node, msg: Message)
    requires msg in Visit(p, n)
    ensures p <= MessagePath(msg)
    ensures !n.Directory? ==> MessagePath(msg) == p
    ensures n.Directory? ==> |p| < |MessagePath(msg)| && FileName(MessagePath(msg)).Some?
    decreases NodeSize(n)
  {
    if n.Directory? {
      var cs := Children(p, n.entries);
      InWalk(cs, msg);
      var k :| 0 <= k < |cs| && msg in Visit(cs[k].path, cs[k].node);
      InChildren(p, n.entries, cs[k]);
      var i :| ChildAt(p, n.entries, i, cs[k]);
      ChildSmaller(n.entries, i);
      VisitStaysBelow(cs[k].path, cs[k].node, msg);
      PrefixOfJoin(p, n.entries[i].name, MessagePath(msg));
    }
  }

  lemma PrefixOfJoin(p: Path, name: string, q: Path)
    requires Join(p, name) <= q
    ensures p <= q && |p| < |q|
  {
    assert q[..|p|] == Join(p, name)[..|p|];
  }
}
