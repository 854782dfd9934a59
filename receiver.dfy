/**
 * The receiver of `Walk::run`: the single consumer that drains the channel,
 * skips entries whose id it has already counted, adds the others to the
 * total and to their group, and collects the errors.
 *
 * `Receive` is the specification: a fold of `Step` over the messages in the
 * order they arrive. `ReceiveAll` is the receiver's loop, proved to compute
 * it. The lemmas state what the fold promises.
 */
module Receiver {
  import opened Wrappers
  import opened Paths
  import opened Walk
  import opened GroupKeys
  import Cli

  /** The receiver's variables: `total`, `ids`, `sizes` and `error_messages`. */
  datatype State = State(total: nat, ids: set<UniqueId>, sizes: map<string, nat>, errors: seq<Error>)

  const Start: State := State(0, {}, map[], [])

  /** `sizes.entry(key).and_modify(|s| *s += size).or_insert(size)`. */
  function AddSize(sizes: map<string, nat>, key: string, size: nat): (r: map<string, nat>)
    ensures r.Keys == sizes.Keys + {key}
    ensures r[key] == size + (if key in sizes then sizes[key] else 0)
    ensures forall k :: k in sizes && k != key ==> r[k] == sizes[k]
  {
    sizes[key := if key in sizes then sizes[key] + size else size]
  }

  /**
   * The key of the size map that an entry at a path is added to: the
   * receiver's `match self.group_by` in mode `g`.
   */
  function ModeKey(g: Cli.GroupBy): Path -> string {
    p => GroupKey(g, p)
  }

  /**
   * One message through the receiver, which files a counted entry under
   * `key` of its path. The total and the seen ids only grow, an error is
   * appended and nothing else is, and the total stays the sum of the groups.
   */
  function Step(key: Path -> string, s: State, msg: Message): (r: State)
    ensures r.total >= s.total && s.ids <= r.ids
    ensures r.errors == s.errors + (if msg.ErrorMessage? then [msg.error] else [])
    ensures s.total == SumValues(s.sizes) ==> r.total == SumValues(r.sizes)
  {
    match msg
    case SizeEntry(id, path, size) =>
      if id.Some? && id.value in s.ids then s
      else
        SumValuesAddSize(s.sizes, key(path), size);
        State(s.total + size,
              if id.Some? then s.ids + {id.value} else s.ids,
              AddSize(s.sizes, key(path), size),
              s.errors)
    case ErrorMessage(e) => s.(errors := s.errors + [e])
  }

  /** The state after the messages `msgs`, in this order; the total is always the sum of the groups, hard links or not. */
  function Receive(key: Path -> string, msgs: seq<Message>): (r: State)
    ensures r.total == SumValues(r.sizes)
  {
    if msgs == [] then Start
    else Step(key, Receive(key, msgs[..|msgs| - 1]), msgs[|msgs| - 1])
  }

  lemma ReceiveSnoc(key: Path -> string, msgs: seq<Message>, m: Message)
    ensures Receive(key, msgs + [m]) == Step(key, Receive(key, msgs), m)
  {
    assert (msgs + [m])[..|msgs|] == msgs;
  }

  /** The state after one more message of `msgs`. */
  lemma ReceivePrefix(key: Path -> string, msgs: seq<Message>, i: nat)
    requires i < |msgs|
    ensures Receive(key, msgs[..i + 1]) == Step(key, Receive(key, msgs[..i]), msgs[i])
  {
    assert msgs[..i + 1][..i] == msgs[..i];
  }

  /**
   * The receiver's loop over the messages as they arrive. The `match
   * group_by` of each iteration always takes the same arm, so the key
   * resolver of the mode is chosen once, before the loop.
   */
  method ReceiveAll(g: Cli.GroupBy, msgs: seq<Message>) returns (total: nat, sizes: map<string, nat>, errors: seq<Error>)
    ensures total == Receive(ModeKey(g), msgs).total
    ensures sizes == Receive(ModeKey(g), msgs).sizes
    ensures errors == Receive(ModeKey(g), msgs).errors
  {
    var groupKey := ModeKey(g);
    total := 0;
    var ids: set<UniqueId> := {};
    sizes := map[];
    errors := [];
    for i := 0 to |msgs|
      invariant State(total, ids, sizes, errors) == Receive(groupKey, msgs[..i])
    {
      ReceivePrefix(groupKey, msgs, i);
      match msgs[i]
      case SizeEntry(id, path, size) =>
        if id.Some? {
          if id.value in ids {
            continue;
          }
          ids := ids + {id.value};
        }
        total := total + size;
        var key := groupKey(path);
        sizes := AddSize(sizes, key, size);
      case ErrorMessage(e) =>
        errors := errors + [e];
    }
    assert msgs[..|msgs|] == msgs;
  }

  /** `Walk::run`: walk the roots and drain the channel. */
  method Run(roots: seq<Item>, g: Cli.GroupBy) returns (total: nat, sizes: map<string, nat>, errors: seq<Error>)
    ensures total == Receive(ModeKey(g), Walk.Walk(roots)).total
    ensures sizes == Receive(ModeKey(g), Walk.Walk(roots)).sizes
    ensures errors == Receive(ModeKey(g), Walk.Walk(roots)).errors
  {
    var msgs := Walk.Walk(roots);
    total, sizes, errors := ReceiveAll(g, msgs);
  }

  // ---------------------------------------------------------------------------
  // Reference descriptions, independent of the fold.

  /** The ids carried by the size entries of `msgs`. */
  function IdsOf(msgs: seq<Message>): set<UniqueId> {
    set i | 0 <= i < |msgs| && msgs[i].SizeEntry? && msgs[i].id.Some? :: msgs[i].id.value
  }

  /** A size entry is a duplicate when an earlier size entry carried the same id. */
  predicate IsDuplicate(earlier: seq<Message>, m: Message) {
    m.SizeEntry? && m.id.Some? && m.id.value in IdsOf(earlier)
  }

  /** The messages with every duplicate size entry removed: what the receiver actually takes in. */
  function Deduplicated(msgs: seq<Message>): seq<Message> {
    if msgs == [] then []
    else
      var init, last := msgs[..|msgs| - 1], msgs[|msgs| - 1];
      Deduplicated(init) + (if IsDuplicate(init, last) then [] else [last])
  }

  /** The errors of the messages, in arrival order. */
  function ErrorsOf(msgs: seq<Message>): seq<Error> {
    if msgs == [] then []
    else
      var last := msgs[|msgs| - 1];
      ErrorsOf(msgs[..|msgs| - 1]) + (if last.ErrorMessage? then [last.error] else [])
  }

  /** Some size entry of `msgs` falls in group `k`. */
  predicate HasKey(key: Path -> string, msgs: seq<Message>, k: string) {
    exists m :: m in msgs && m.SizeEntry? && key(m.path) == k
  }

  /** The sum of a weight over the messages. */
  function SumBy(w: Message -> nat, msgs: seq<Message>): nat {
    if msgs == [] then 0 else SumBy(w, msgs[..|msgs| - 1]) + w(msgs[|msgs| - 1])
  }

  /** The bytes a message adds to group `k`. */
  function KeyWeight(key: Path -> string, k: string): Message -> nat {
    (m: Message) => if m.SizeEntry? && key(m.path) == k then m.size else 0
  }

  /** The bytes of the size entries of `msgs` that fall in group `k`. */
  function KeyBytes(key: Path -> string, msgs: seq<Message>, k: string): nat {
    SumBy(KeyWeight(key, k), msgs)
  }

  /** How many times error `e` occurs among the messages. */
  function ErrorWeight(e: Error): Message -> nat {
    (m: Message) => if m == ErrorMessage(e) then 1 else 0
  }

  /** No two size entries carry the same id: the walked tree has no hard links. */
  predicate NoSharedIds(msgs: seq<Message>) {
    forall i, j :: 0 <= i < j < |msgs| && msgs[i].SizeEntry? && msgs[j].SizeEntry? && msgs[i].id.Some?
      ==> msgs[i].id != msgs[j].id
  }

  /** The sum of the values of `m` at the keys `ks`. */
  ghost function SumOver<K>(m: map<K, nat>, ks: set<K>): nat
    requires ks <= m.Keys
  {
    if ks == {} then 0
    else
      var k :| k in ks;
      m[k] + SumOver(m, ks - {k})
  }

  /** The sum of the values of a map. */
  ghost function SumValues<K>(m: map<K, nat>): nat {
    SumOver(m, m.Keys)
  }

  /** The sum does not depend on the order the keys are taken in. */
  lemma {:induction false} SumOverRemove<K>(m: map<K, nat>, ks: set<K>, k: K)
    requires ks <= m.Keys && k in ks
    ensures SumOver(m, ks) == m[k] + SumOver(m, ks - {k})
    decreases ks
  {
    var j :| j in ks && SumOver(m, ks) == m[j] + SumOver(m, ks - {j});
    if j != k {
      SumOverRemove(m, ks - {j}, k);
      SumOverRemove(m, ks - {k}, j);
      assert ks - {j} - {k} == ks - {k} - {j};
    }
  }

  lemma {:induction false} SumOverAgree<K>(m: map<K, nat>, n: map<K, nat>, ks: set<K>)
    requires ks <= m.Keys && ks <= n.Keys
    requires forall k :: k in ks ==> m[k] == n[k]
    ensures SumOver(m, ks) == SumOver(n, ks)
    decreases ks
  {
    if ks != {} {
      var j :| j in ks && SumOver(m, ks) == m[j] + SumOver(m, ks - {j});
      SumOverRemove(n, ks, j);
      SumOverAgree(m, n, ks - {j});
    }
  }

  /** Adding `size` to one group adds it to the sum of the groups. */
  lemma SumValuesAddSize(m: map<string, nat>, key: string, size: nat)
    ensures SumValues(AddSize(m, key, size)) == SumValues(m) + size
  {
    var r := AddSize(m, key, size);
    SumOverRemove(r, r.Keys, key);
    SumOverAgree(r, m, m.Keys - {key});
    assert r.Keys - {key} == m.Keys - {key};
    if key in m {
      SumOverRemove(m, m.Keys, key);
    } else {
      assert m.Keys - {key} == m.Keys;
    }
  }

  /** Adding a new key with value `v` adds `v` to the sum. */
  lemma SumValuesInsert<K>(m: map<K, nat>, k: K, v: nat)
    requires k !in m
    ensures SumValues(m[k := v]) == SumValues(m) + v
  {
    var r := m[k := v];
    SumOverRemove(r, r.Keys, k);
    assert r.Keys - {k} == m.Keys;
    SumOverAgree(r, m, m.Keys);
  }

  // ---------------------------------------------------------------------------
  // One message at a time.

  /** The ids the receiver has seen are exactly the ids the size entries carried. */
  lemma {:induction false} ReceiveIds(key: Path -> string, msgs: seq<Message>)
    ensures Receive(key, msgs).ids == IdsOf(msgs)
    decreases |msgs|
  {
    if msgs != [] {
      var init, last := msgs[..|msgs| - 1], msgs[|msgs| - 1];
      ReceiveIds(key, init);
      IdsOfSnoc(init, last);
      assert msgs == init + [last];
    }
  }

  lemma IdsOfSnoc(msgs: seq<Message>, m: Message)
    ensures IdsOf(msgs + [m]) == IdsOf(msgs) + (if m.SizeEntry? && m.id.Some? then {m.id.value} else {})
  {
    var a := msgs + [m];
    forall id | id in IdsOf(a) ensures id in IdsOf(msgs) + (if m.SizeEntry? && m.id.Some? then {m.id.value} else {}) {
      var i :| 0 <= i < |a| && a[i].SizeEntry? && a[i].id.Some? && a[i].id.value == id;
      if i < |msgs| {
        assert msgs[i] == a[i];
      }
    }
    forall id | id in IdsOf(msgs) ensures id in IdsOf(a) {
      var i :| 0 <= i < |msgs| && msgs[i].SizeEntry? && msgs[i].id.Some? && msgs[i].id.value == id;
      assert a[i] == msgs[i];
    }
    if m.SizeEntry? && m.id.Some? {
      assert a[|msgs|] == m;
    }
  }

  /** A size entry whose id was already carried by an earlier one changes nothing: hard links count once. */
  lemma DuplicateIsSkipped(key: Path -> string, msgs: seq<Message>, id: UniqueId, path: Path, size: nat)
    requires id in IdsOf(msgs)
    ensures Receive(key, msgs + [SizeEntry(Some(id), path, size)]) == Receive(key, msgs)
  {
    ReceiveSnoc(key, msgs, SizeEntry(Some(id), path, size));
    ReceiveIds(key, msgs);
  }

  /**
   * A size entry with no id, or with an id not seen before, is counted: its
   * size is added to the total and to exactly one group, the group of its
   * path, and the other groups and the errors are left as they were.
   */
  lemma FreshEntryIsCounted(key: Path -> string, msgs: seq<Message>, id: Option<UniqueId>, path: Path, size: nat)
    requires id.None? || id.value !in IdsOf(msgs)
    ensures var before, after := Receive(key, msgs), Receive(key, msgs + [SizeEntry(id, path, size)]);
      var group := key(path);
      && after.total == before.total + size
      && after.sizes.Keys == before.sizes.Keys + {group}
      && after.sizes[group] == size + (if group in before.sizes then before.sizes[group] else 0)
      && (forall k :: k in before.sizes && k != group ==> after.sizes[k] == before.sizes[k])
      && after.errors == before.errors
      && after.ids == IdsOf(msgs) + (if id.Some? then {id.value} else {})
  {
    ReceiveSnoc(key, msgs, SizeEntry(id, path, size));
    ReceiveIds(key, msgs);
  }

  /** An error is appended to the errors and changes nothing else. */
  lemma ErrorIsAppended(key: Path -> string, msgs: seq<Message>, e: Error)
    ensures var before, after := Receive(key, msgs), Receive(key, msgs + [ErrorMessage(e)]);
      after == before.(errors := before.errors + [e])
  {
    ReceiveSnoc(key, msgs, ErrorMessage(e));
  }

  // ---------------------------------------------------------------------------
  // The whole run of messages.

  /** The errors come out in the order they arrived, whatever the mode. */
  lemma {:induction false} ReceiveErrors(key: Path -> string, msgs: seq<Message>)
    ensures Receive(key, msgs).errors == ErrorsOf(msgs)
    decreases |msgs|
  {
    if msgs != [] {
      ReceiveErrors(key, msgs[..|msgs| - 1]);
    }
  }

  lemma HasKeySnoc(key: Path -> string, msgs: seq<Message>, m: Message, k: string)
    ensures HasKey(key, msgs + [m], k) == (HasKey(key, msgs, k) || (m.SizeEntry? && key(m.path) == k))
  {
    if m.SizeEntry? && key(m.path) == k {
      assert m in msgs + [m];
    }
    forall x | x in msgs ensures x in msgs + [m] {
    }
  }

  lemma KeyBytesSnoc(key: Path -> string, msgs: seq<Message>, m: Message, k: string)
    ensures KeyBytes(key, msgs + [m], k) == KeyBytes(key, msgs, k) + (if m.SizeEntry? && key(m.path) == k then m.size else 0)
  {
    assert (msgs + [m])[..|msgs|] == msgs;
  }

  /** A group no size entry falls in holds no bytes. */
  lemma {:induction false} KeyBytesOfMissingKey(key: Path -> string, msgs: seq<Message>, k: string)
    requires !HasKey(key, msgs, k)
    ensures KeyBytes(key, msgs, k) == 0
    decreases |msgs|
  {
    if msgs != [] {
      var init, last := msgs[..|msgs| - 1], msgs[|msgs| - 1];
      assert msgs == init + [last];
      HasKeySnoc(key, init, last, k);
      KeyBytesOfMissingKey(key, init, k);
    }
  }

  /** The receiver's total is the number of bytes of the deduplicated messages. */
  lemma {:induction false} ReceiveTotalIsDeduplicatedBytes(key: Path -> string, msgs: seq<Message>)
    ensures Receive(key, msgs).total == MessagesTally(Deduplicated(msgs)).bytes
    decreases |msgs|
  {
    if msgs != [] {
      var init, last := msgs[..|msgs| - 1], msgs[|msgs| - 1];
      ReceiveTotalIsDeduplicatedBytes(key, init);
      ReceiveIds(key, init);
      var d := Deduplicated(init);
      if IsDuplicate(init, last) {
        assert Deduplicated(msgs) == d;
      } else {
        assert Deduplicated(msgs) == d + [last];
        MessagesTallySnoc(d, [last]);
        assert d + [last][..0] == d;
      }
    }
  }

  /**
   * The receiver's groups are the keys of the deduplicated size entries,
   * and each group holds the bytes of those entries that fall in it.
   */
  lemma {:induction false} ReceiveSizesAreDeduplicatedKeyBytes(key: Path -> string, msgs: seq<Message>)
    ensures forall k :: k in Receive(key, msgs).sizes <==> HasKey(key, Deduplicated(msgs), k)
    ensures forall k :: k in Receive(key, msgs).sizes ==> Receive(key, msgs).sizes[k] == KeyBytes(key, Deduplicated(msgs), k)
    decreases |msgs|
  {
    if msgs != [] {
      var init, last := msgs[..|msgs| - 1], msgs[|msgs| - 1];
      ReceiveSizesAreDeduplicatedKeyBytes(key, init);
      ReceiveIds(key, init);
      var d, r := Deduplicated(init), Receive(key, msgs);
      if IsDuplicate(init, last) {
        assert Deduplicated(msgs) == d;
      } else {
        assert Deduplicated(msgs) == d + [last];
        forall k
          ensures k in r.sizes <==> HasKey(key, d + [last], k)
          ensures k in r.sizes ==> r.sizes[k] == KeyBytes(key, d + [last], k)
        {
          HasKeySnoc(key, d, last, k);
          KeyBytesSnoc(key, d, last, k);
          if !HasKey(key, d, k) {
            KeyBytesOfMissingKey(key, d, k);
          }
        }
      }
    }
  }

  // ---------------------------------------------------------------------------
  // Sums over messages do not depend on their order.

  lemma SumBySnoc(w: Message -> nat, a: seq<Message>, b: seq<Message>)
    requires b != []
    ensures SumBy(w, a + b) == SumBy(w, a + b[..|b| - 1]) + w(b[|b| - 1])
  {
    assert (a + b)[..|a + b| - 1] == a + b[..|b| - 1];
    assert (a + b)[|a + b| - 1] == b[|b| - 1];
  }

  lemma {:induction false} SumByAppend(w: Message -> nat, a: seq<Message>, b: seq<Message>)
    ensures SumBy(w, a + b) == SumBy(w, a) + SumBy(w, b)
    decreases |b|
  {
    if b == [] {
      assert a + b == a;
    } else {
      SumByAppend(w, a, b[..|b| - 1]);
      SumBySnoc(w, a, b);
    }
  }

  lemma SumBySingle(w: Message -> nat, m: Message)
    ensures SumBy(w, [m]) == w(m)
  {
    assert [m][..0] == [];
  }

  /** Taking one message out of the sum. */
  lemma SumByRemove(w: Message -> nat, b: seq<Message>, j: nat)
    requires j < |b|
    ensures SumBy(w, b) == SumBy(w, b[..j] + b[j + 1..]) + w(b[j])
  {
    var before, x, after := b[..j], b[j], b[j + 1..];
    SplitAt(b, j);
    SumByAppend(w, before + [x], after);
    SumByAppend(w, before, [x]);
    SumByAppend(w, before, after);
    SumBySingle(w, x);
  }

  lemma SplitAt<T>(b: seq<T>, j: nat)
    requires j < |b|
    ensures b == (b[..j] + [b[j]]) + b[j + 1..]
  {
  }

  lemma MultisetRemove(b: seq<Message>, j: nat)
    requires j < |b|
    ensures multiset(b[..j] + b[j + 1..]) == multiset(b) - multiset{b[j]}
  {
    SplitAt(b, j);
  }

  lemma {:induction false} SumByPermutation(w: Message -> nat, a: seq<Message>, b: seq<Message>)
    requires multiset(a) == multiset(b)
    ensures SumBy(w, a) == SumBy(w, b)
    decreases |a|
  {
    if a != [] {
      var init, x := a[..|a| - 1], a[|a| - 1];
      assert a == init + [x];
      assert x in multiset(b);
      var j :| 0 <= j < |b| && b[j] == x;
      MultisetRemove(b, j);
      SumByPermutation(w, init, b[..j] + b[j + 1..]);
      SumByRemove(w, b, j);
    }
  }

  // ---------------------------------------------------------------------------
  // Trees without hard links.

  /** When no id is shared, no entry is a duplicate and the receiver takes in every message. */
  lemma {:induction false} NoSharedIdsDeduplicated(msgs: seq<Message>)
    requires NoSharedIds(msgs)
    ensures Deduplicated(msgs) == msgs
    decreases |msgs|
  {
    if msgs != [] {
      var init, last := msgs[..|msgs| - 1], msgs[|msgs| - 1];
      assert NoSharedIds(init) by {
        forall i, j | 0 <= i < j < |init| ensures init[i] == msgs[i] && init[j] == msgs[j] {
        }
      }
      NoSharedIdsDeduplicated(init);
      assert !IsDuplicate(init, last);
    }
  }

  /** When no id is shared, each group holds the bytes of every size entry whose key it is. */
  lemma ReceiveSizesWithoutHardLinks(key: Path -> string, msgs: seq<Message>)
    requires NoSharedIds(msgs)
    ensures forall k :: k in Receive(key, msgs).sizes <==> HasKey(key, msgs, k)
    ensures forall k :: k in Receive(key, msgs).sizes ==> Receive(key, msgs).sizes[k] == KeyBytes(key, msgs, k)
  {
    NoSharedIdsDeduplicated(msgs);
    ReceiveSizesAreDeduplicatedKeyBytes(key, msgs);
  }

  lemma {:induction false} ErrorsOfCount(msgs: seq<Message>)
    ensures |ErrorsOf(msgs)| == MessagesTally(msgs).failures
    ensures forall e :: multiset(ErrorsOf(msgs))[e] == SumBy(ErrorWeight(e), msgs)
    decreases |msgs|
  {
    if msgs != [] {
      ErrorsOfCount(msgs[..|msgs| - 1]);
    }
  }

  /**
   * The messages of a walk without hard links: the total is the bytes of
   * every file reached, each group holds the bytes of the files whose key
   * it is, and there is one error per path that failed.
   */
  lemma WalkWithoutHardLinks(g: Cli.GroupBy, roots: seq<Item>)
    requires NoSharedIds(Walk.Walk(roots))
    ensures var r := Receive(ModeKey(g), Walk.Walk(roots));
      && r.total == ItemsTally(roots).bytes
      && |r.errors| == ItemsTally(roots).failures
      && (forall k :: k in r.sizes <==> HasKey(ModeKey(g), Walk.Walk(roots), k))
      && (forall k :: k in r.sizes ==> r.sizes[k] == KeyBytes(ModeKey(g), Walk.Walk(roots), k))
  {
    var msgs := Walk.Walk(roots);
    NoSharedIdsDeduplicated(msgs);
    ReceiveTotalIsDeduplicatedBytes(ModeKey(g), msgs);
    ReceiveSizesWithoutHardLinks(ModeKey(g), msgs);
    ReceiveErrors(ModeKey(g), msgs);
    ErrorsOfCount(msgs);
    WalkTally(roots);
  }

  // ---------------------------------------------------------------------------
  // Hard links in general.

  /**
   * Deduplication keeps every id and drops every repeat: the deduplicated
   * messages carry the same ids as all the messages, each on one size entry.
   */
  lemma {:induction false} DeduplicatedIds(msgs: seq<Message>)
    ensures IdsOf(Deduplicated(msgs)) == IdsOf(msgs)
    ensures NoSharedIds(Deduplicated(msgs))
    decreases |msgs|
  {
    if msgs != [] {
      var init, last := msgs[..|msgs| - 1], msgs[|msgs| - 1];
      DeduplicatedIds(init);
      IdsOfSnoc(init, last);
      assert msgs == init + [last];
      var d := Deduplicated(init);
      if IsDuplicate(init, last) {
        assert Deduplicated(msgs) == d;
      } else {
        assert Deduplicated(msgs) == d + [last];
        IdsOfSnoc(d, last);
        var d' := d + [last];
        forall i, j | 0 <= i < j < |d'| && d'[i].SizeEntry? && d'[j].SizeEntry? && d'[i].id.Some?
          ensures d'[i].id != d'[j].id
        {
          assert d'[i] == d[i];
          if j == |d| {
            assert d[i].id.value in IdsOf(d);
          } else {
            assert d'[j] == d[j];
          }
        }
      }
    }
  }

  /** Size entries with the same id have the same size, as hard links of one stored file do. */
  predicate SizesAgreeOnIds(msgs: seq<Message>) {
    forall m1, m2 :: m1 in msgs && m2 in msgs && m1.SizeEntry? && m2.SizeEntry? && m1.id.Some? && m1.id == m2.id
      ==> m1.size == m2.size
  }

  /** The bytes of a size entry that carries no id. */
  const NoIdWeight: Message -> nat := (m: Message) => if m.SizeEntry? && m.id.None? then m.size else 0

  /** The size of the file with id `id`: the size of any entry that carries it. */
  ghost function IdSize(msgs: seq<Message>, id: UniqueId): nat
    requires id in IdsOf(msgs)
  {
    var i :| 0 <= i < |msgs| && msgs[i].SizeEntry? && msgs[i].id == Some(id);
    msgs[i].size
  }

  /** Each id carried by the messages, with the size of its file. */
  ghost function IdTable(msgs: seq<Message>): map<UniqueId, nat> {
    map id | id in IdsOf(msgs) :: IdSize(msgs, id)
  }

  lemma IdSizeOfEntry(msgs: seq<Message>, id: UniqueId, m: Message)
    requires SizesAgreeOnIds(msgs) && id in IdsOf(msgs)
    requires m in msgs && m.SizeEntry? && m.id == Some(id)
    ensures IdSize(msgs, id) == m.size
  {
    var i :| 0 <= i < |msgs| && msgs[i].SizeEntry? && msgs[i].id == Some(id) && IdSize(msgs, id) == msgs[i].size;
  }

  lemma IdsOfMember(msgs: seq<Message>, id: UniqueId)
    ensures id in IdsOf(msgs) <==> exists m :: m in msgs && m.SizeEntry? && m.id == Some(id)
  {
    if exists m :: m in msgs && m.SizeEntry? && m.id == Some(id) {
      var m :| m in msgs && m.SizeEntry? && m.id == Some(id);
      var i :| 0 <= i < |msgs| && msgs[i] == m;
    }
  }

  /** Every id of `sub` names a file of the same size in `msgs`, when `sub` takes its messages from `msgs`. */
  lemma IdTableAgree(msgs: seq<Message>, sub: seq<Message>)
    requires SizesAgreeOnIds(msgs)
    requires forall m :: m in sub ==> m in msgs
    ensures SizesAgreeOnIds(sub)
    ensures IdsOf(sub) <= IdsOf(msgs)
    ensures forall id :: id in IdsOf(sub) ==> IdTable(sub)[id] == IdTable(msgs)[id]
  {
    forall id | id in IdsOf(sub)
      ensures id in IdsOf(msgs) && IdTable(sub)[id] == IdTable(msgs)[id]
    {
      var i :| 0 <= i < |sub| && sub[i].SizeEntry? && sub[i].id == Some(id) && IdSize(sub, id) == sub[i].size;
      IdsOfMember(msgs, id);
      IdSizeOfEntry(msgs, id, sub[i]);
    }
  }

  /** A message whose id is new adds that id, with its size, to the table. */
  lemma IdTableSnocNew(init: seq<Message>, last: Message)
    requires SizesAgreeOnIds(init + [last])
    requires last.SizeEntry? && last.id.Some? && last.id.value !in IdsOf(init)
    ensures IdTable(init + [last]) == IdTable(init)[last.id.value := last.size]
  {
    var msgs, id := init + [last], last.id.value;
    IdTableAgree(msgs, init);
    IdsOfSnoc(init, last);
    var t, t' := IdTable(init), IdTable(msgs);
    assert last in msgs;
    IdSizeOfEntry(msgs, id, last);
    forall k | k in IdsOf(msgs)
      ensures k in t[id := last.size] && t'[k] == t[id := last.size][k]
    {
      if k != id {
        assert k in IdsOf(init);
      }
    }
    MapsEqual(t', t[id := last.size]);
  }

  /** Any other message leaves the table as it was. */
  lemma IdTableSnocOld(init: seq<Message>, last: Message)
    requires SizesAgreeOnIds(init + [last])
    requires !(last.SizeEntry? && last.id.Some? && last.id.value !in IdsOf(init))
    ensures IdTable(init + [last]) == IdTable(init)
  {
    var msgs := init + [last];
    assert IdsOf(msgs) == IdsOf(init) by {
      IdsOfSnoc(init, last);
    }
    IdTableAgree(msgs, init);
    MapsEqual(IdTable(msgs), IdTable(init));
  }

  lemma MapsEqual<K, V>(m: map<K, V>, n: map<K, V>)
    requires m.Keys == n.Keys
    requires forall k :: k in m ==> m[k] == n[k]
    ensures m == n
  {
  }

  /**
   * However many names a hard-linked file has, it is counted once: the
   * total is the bytes of the entries without an id plus, once per id, the
   * size of the file with that id.
   */
  lemma {:induction false} ReceiveTotalByIds(key: Path -> string, msgs: seq<Message>)
    requires SizesAgreeOnIds(msgs)
    ensures Receive(key, msgs).total == SumBy(NoIdWeight, msgs) + SumValues(IdTable(msgs))
    decreases |msgs|
  {
    if msgs != [] {
      var init, last := msgs[..|msgs| - 1], msgs[|msgs| - 1];
      assert msgs == init + [last];
      IdTableAgree(msgs, init);
      ReceiveTotalByIds(key, init);
      ReceiveIds(key, init);
      if last.SizeEntry? && last.id.Some? && last.id.value !in IdsOf(init) {
        IdTableSnocNew(init, last);
        SumValuesInsert(IdTable(init), last.id.value, last.size);
      } else {
        IdTableSnocOld(init, last);
      }
    }
  }

  /**
   * With or without hard links, the total does not depend on the order the
   * messages arrive in, as long as entries with one id have one size.
   */
  lemma ReceiveTotalOrderIndependent(key: Path -> string, a: seq<Message>, b: seq<Message>)
    requires multiset(a) == multiset(b)
    requires SizesAgreeOnIds(a)
    ensures Receive(key, a).total == Receive(key, b).total
  {
    forall m | m in b ensures m in a {
      assert m in multiset(b);
    }
    forall m | m in a ensures m in b {
      assert m in multiset(a);
    }
    IdTableAgree(a, b);
    IdTableAgree(b, a);
    MapsEqual(IdTable(a), IdTable(b));
    ReceiveTotalByIds(key, a);
    ReceiveTotalByIds(key, b);
    SumByPermutation(NoIdWeight, a, b);
  }

  /** Whether a group is present does not depend on the order of the messages. */
  lemma HasKeyPermutation(key: Path -> string, a: seq<Message>, b: seq<Message>, k: string)
    requires multiset(a) == multiset(b)
    ensures HasKey(key, a, k) == HasKey(key, b, k)
  {
    if HasKey(key, a, k) {
      var m :| m in a && m.SizeEntry? && key(m.path) == k;
      assert m in multiset(b);
    }
    if HasKey(key, b, k) {
      var m :| m in b && m.SizeEntry? && key(m.path) == k;
      assert m in multiset(a);
    }
  }

  /** Without hard links the groups do not depend on the order the messages arrive in. */
  lemma ReceiveSizesOrderIndependent(key: Path -> string, a: seq<Message>, b: seq<Message>)
    requires multiset(a) == multiset(b)
    requires NoSharedIds(a) && NoSharedIds(b)
    ensures Receive(key, a).sizes == Receive(key, b).sizes
  {
    ReceiveSizesWithoutHardLinks(key, a);
    ReceiveSizesWithoutHardLinks(key, b);
    var sa, sb := Receive(key, a).sizes, Receive(key, b).sizes;
    forall k
      ensures k in sa <==> k in sb
      ensures k in sa ==> sa[k] == sb[k]
    {
      HasKeyPermutation(key, a, b, k);
      SumByPermutation(KeyWeight(key, k), a, b);
    }
    assert sa.Keys == sb.Keys;
  }

  /** The errors do not depend on the order of the messages, except in their own order. */
  lemma ReceiveErrorsOrderIndependent(key: Path -> string, a: seq<Message>, b: seq<Message>)
    requires multiset(a) == multiset(b)
    ensures multiset(Receive(key, a).errors) == multiset(Receive(key, b).errors)
  {
    ReceiveErrors(key, a);
    ReceiveErrors(key, b);
    ErrorsOfCount(a);
    ErrorsOfCount(b);
    forall e ensures multiset(ErrorsOf(a))[e] == multiset(ErrorsOf(b))[e] {
      SumByPermutation(ErrorWeight(e), a, b);
    }
  }

  /**
   * Without hard links the parallel walk's arrival order does not matter:
   * two orders of the same messages give the same total and groups, and
   * the same errors up to order.
   */
  lemma ReceiveOrderIndependent(key: Path -> string, a: seq<Message>, b: seq<Message>)
    requires multiset(a) == multiset(b)
    requires NoSharedIds(a) && NoSharedIds(b)
    ensures Receive(key, a).total == Receive(key, b).total
    ensures Receive(key, a).sizes == Receive(key, b).sizes
    ensures multiset(Receive(key, a).errors) == multiset(Receive(key, b).errors)
  {
    ReceiveSizesOrderIndependent(key, a, b);
    ReceiveErrorsOrderIndependent(key, a, b);
  }

  /** Of two entries for the same file, the first is counted and the second skipped. */
  lemma HardLinkFirstCounted(key: Path -> string, id: UniqueId, pa: Path, pb: Path, size: nat)
    ensures Receive(key, [SizeEntry(Some(id), pa, size), SizeEntry(Some(id), pb, size)])
      == State(size, {id}, map[key(pa) := size], [])
  {
    var ea, eb := SizeEntry(Some(id), pa, size), SizeEntry(Some(id), pb, size);
    var first := State(size, {id}, map[key(pa) := size], []);
    assert Receive(key, [ea]) == first by {
      assert [ea][..0] == [];
      assert AddSize(map[], key(pa), size) == map[key(pa) := size];
    }
    assert Receive(key, [ea, eb]) == Step(key, first, eb) by {
      assert [ea, eb][..1] == [ea];
    }
  }

  /**
   * With a hard link the order matters: two entries for the same file,
   * under paths with different keys, credit the group of whichever
   * arrives first; the total is the same either way.
   */
  lemma HardLinkCreditDependsOnOrder(key: Path -> string, id: UniqueId, pa: Path, pb: Path, size: nat)
    requires key(pa) != key(pb)
    ensures var ea, eb := SizeEntry(Some(id), pa, size), SizeEntry(Some(id), pb, size);
      && Receive(key, [ea, eb]).sizes == map[key(pa) := size]
      && Receive(key, [eb, ea]).sizes == map[key(pb) := size]
      && Receive(key, [ea, eb]).total == size == Receive(key, [eb, ea]).total
  {
    HardLinkFirstCounted(key, id, pa, pb, size);
    HardLinkFirstCounted(key, id, pb, pa, size);
  }
}
