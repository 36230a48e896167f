/**
The content-addressed store on a file system: publication by exclusive create and link, with any
number of writers and a crash between any two steps; and the bounded listing of its objects.
*/
module BlobFiles {
  import opened Protocol

  // ---------------------------------------------------------------- publication

  type Content = seq<nat>
  type Digest = Content -> nat

  /** Where one `put` stands; `verified` is the content whose hash and size were checked. */
  datatype Put =
    | Checking(hash: nat, size: nat)
    | Creating(hash: nat, size: nat)
    | Copying(hash: nat, size: nat)
    | Linking(hash: nat, size: nat, verified: Content)
    | Confirming(hash: nat, size: nat, verified: Content)
    | Rechecking(hash: nat, size: nat, verified: Content)
    | Succeeded(hash: nat, size: nat)
    | Refused(hash: nat, size: nat)

  /** A file: its bytes, and the writer that created it, which stands for its inode. */
  datatype Inode = Inode(content: Content, writer: nat)

  /** Temporary files by the writer that made them, objects by hash. */
  datatype Medium = Medium(temporary: map<nat, Content>, objects: map<nat, Inode>, puts: map<nat, Put>)

  datatype Act =
    | Begin(pid: nat, hash: nat, size: nat)
    | Check(pid: nat)
    | Create(pid: nat)
    | Copy(pid: nat, bytes: Content)
    | EndCopy(pid: nat)
    | Link(pid: nat)
    | Confirm(pid: nat)
    | Recheck(pid: nat)
    | Crash(pid: nat)
    | Sweep(temp: nat)
    | Remove(hash: nat)

  /** An object at a path is accepted only with the declared size and the right hash. */
  predicate Sound(content: Content, hash: nat, size: nat, digest: Digest) {
    |content| == size && digest(content) == hash
  }

  predicate Enabled(m: Medium, a: Act) {
    match a
    case Begin(pid, _, _) => pid !in m.puts && pid !in m.temporary
    case Check(pid) => pid in m.puts && m.puts[pid].Checking?
    case Create(pid) => pid in m.puts && m.puts[pid].Creating? && pid !in m.temporary
    case Copy(pid, _) => pid in m.puts && m.puts[pid].Copying? && pid in m.temporary
    case EndCopy(pid) => pid in m.puts && m.puts[pid].Copying? && pid in m.temporary
    case Link(pid) => pid in m.puts && m.puts[pid].Linking? && pid in m.temporary
    case Confirm(pid) => pid in m.puts && m.puts[pid].Confirming?
    case Recheck(pid) => pid in m.puts && m.puts[pid].Rechecking?
    case Crash(pid) => pid in m.puts
    case Sweep(temp) => temp in m.temporary && temp !in m.puts
    case Remove(hash) => hash in m.objects
  }

  function Checked(m: Medium, hash: nat, size: nat, digest: Digest, absent: Put): Put {
    if hash !in m.objects then absent
    else if Sound(m.objects[hash].content, hash, size, digest) then Succeeded(hash, size)
    else Refused(hash, size)
  }

  function Next(m: Medium, a: Act, digest: Digest): Medium
    requires Enabled(m, a)
  {
    match a
    case Begin(pid, h, n) => m.(puts := m.puts[pid := Checking(h, n)])
    case Check(pid) =>
      var p := m.puts[pid];
      m.(puts := m.puts[pid := Checked(m, p.hash, p.size, digest, Creating(p.hash, p.size))])
    case Create(pid) =>
      var p := m.puts[pid];
      m.(temporary := m.temporary[pid := []], puts := m.puts[pid := Copying(p.hash, p.size)])
    case Copy(pid, bytes) => m.(temporary := m.temporary[pid := m.temporary[pid] + bytes])
    case EndCopy(pid) =>
      var p, c := m.puts[pid], m.temporary[pid];
      if Sound(c, p.hash, p.size, digest) then m.(puts := m.puts[pid := Linking(p.hash, p.size, c)])
      else m.(temporary := m.temporary - {pid}, puts := m.puts[pid := Refused(p.hash, p.size)])
    case Link(pid) =>
      var p := m.puts[pid];
      if p.hash in m.objects then
        m.(temporary := m.temporary - {pid}, puts := m.puts[pid := Rechecking(p.hash, p.size, p.verified)])
      else
        m.(objects := m.objects[p.hash := Inode(m.temporary[pid], pid)], puts := m.puts[pid := Confirming(p.hash, p.size, p.verified)])
    case Confirm(pid) =>
      var p := m.puts[pid];
      m.(temporary := m.temporary - {pid},
         puts := m.puts[pid := if p.hash in m.objects && m.objects[p.hash] == Inode(p.verified, pid) then Succeeded(p.hash, p.size) else Refused(p.hash, p.size)])
    case Recheck(pid) =>
      var p := m.puts[pid];
      m.(puts := m.puts[pid := Checked(m, p.hash, p.size, digest, Refused(p.hash, p.size))])
    case Crash(pid) => m.(puts := m.puts - {pid})
    case Sweep(temp) => m.(temporary := m.temporary - {temp})
    case Remove(hash) => m.(objects := m.objects - {hash})
  }

  /** What was verified is still what the writer holds. */
  ghost predicate Holds(m: Medium, pid: nat, digest: Digest)
    requires pid in m.puts
  {
    var p := m.puts[pid];
    && (p.Linking? ==> pid in m.temporary && m.temporary[pid] == p.verified && Sound(p.verified, p.hash, p.size, digest))
    && (p.Confirming? || p.Rechecking? ==> Sound(p.verified, p.hash, p.size, digest))
  }

  ghost predicate Inv(m: Medium, digest: Digest) {
    && (forall h | h in m.objects :: digest(m.objects[h].content) == h)
    && (forall pid | pid in m.puts :: Holds(m, pid, digest))
  }

  /**
   * An object at a hash's path always has bytes hashing to it, and none is ever replaced: after any
   * step, crash included, what was there is there unchanged or gone.
   */
  lemma PublicationStep(m: Medium, a: Act, digest: Digest)
    requires Inv(m, digest) && Enabled(m, a)
    ensures Inv(Next(m, a, digest), digest)
    ensures forall h | h in m.objects && h in Next(m, a, digest).objects :: Next(m, a, digest).objects[h] == m.objects[h]
    ensures forall h | h in m.objects && h !in Next(m, a, digest).objects :: a == Remove(h)
    ensures forall h | h !in m.objects && h in Next(m, a, digest).objects ::
              a.Link? && m.puts[a.pid].hash == h && Next(m, a, digest).objects[h] == Inode(m.puts[a.pid].verified, a.pid)
  {
    var m' := Next(m, a, digest);
    forall pid | pid in m'.puts ensures Holds(m', pid, digest) {
      if pid in m.puts { assert Holds(m, pid, digest); }
    }
  }

  /** The state after a sequence of steps, if each is enabled where it is taken. */
  function After(m: Medium, acts: seq<Act>, digest: Digest): Option<Medium> {
    if acts == [] then Some(m)
    else
      var before := After(m, acts[..|acts| - 1], digest);
      if before.Some? && Enabled(before.value, acts[|acts| - 1]) then Some(Next(before.value, acts[|acts| - 1], digest)) else None
  }

  /** In every run every object is what its name says. */
  lemma {:induction false} AlwaysPublished(m: Medium, acts: seq<Act>, digest: Digest)
    requires Inv(m, digest) && After(m, acts, digest).Some?
    ensures Inv(After(m, acts, digest).value, digest)
  {
    if acts != [] {
      hide Inv, Enabled, Next;
      AlwaysPublished(m, acts[..|acts| - 1], digest);
      PublicationStep(After(m, acts[..|acts| - 1], digest).value, acts[|acts| - 1], digest);
    }
  }

  /** Where a put of verified bytes can stand while its object is not removed: anywhere but refused. */
  ghost predicate OnItsWay(m: Medium, pid: nat, hash: nat, size: nat, verified: Content) {
    pid in m.puts ==>
      || m.puts[pid] == Linking(hash, size, verified)
      || (m.puts[pid] == Rechecking(hash, size, verified) && hash in m.objects)
      || (m.puts[pid] == Confirming(hash, size, verified) && hash in m.objects && m.objects[hash] == Inode(verified, pid))
      || m.puts[pid] == Succeeded(hash, size)
  }

  lemma OnItsWayStep(m: Medium, a: Act, digest: Digest, pid: nat, hash: nat, size: nat, verified: Content)
    requires Inv(m, digest) && Enabled(m, a) && OnItsWay(m, pid, hash, size, verified)
    requires Sound(verified, hash, size, digest) && forall c: Content :: digest(c) == hash ==> c == verified
    requires a != Remove(hash) && !(a.Begin? && a.pid == pid)
    ensures OnItsWay(Next(m, a, digest), pid, hash, size, verified)
    ensures pid in m.puts && m.puts[pid].Rechecking? && a == Recheck(pid) ==> Next(m, a, digest).puts[pid] == Succeeded(hash, size)
    ensures pid in m.puts && m.puts[pid].Confirming? && a == Confirm(pid) ==> Next(m, a, digest).puts[pid] == Succeeded(hash, size)
  {
    if pid in m.puts { assert Holds(m, pid, digest); }
    PublicationStep(m, a, digest);
  }

  /**
   * The losers of a link race succeed, and so does its winner: once a put has verified its bytes,
   * whatever any number of other puts, crashes and sweeps do, and however late it goes on, it is
   * still on its way, has succeeded or has crashed, and is never refused; provided nobody removes
   * the object and no other content has its hash. Its own last step then succeeds.
   */
  lemma {:induction false} LoserSucceeds(m: Medium, acts: seq<Act>, digest: Digest, pid: nat)
    requires Inv(m, digest) && pid in m.puts && m.puts[pid].Linking? && After(m, acts, digest).Some?
    requires forall c: Content :: digest(c) == digest(m.puts[pid].verified) ==> c == m.puts[pid].verified
    requires forall a | a in acts :: a != Remove(m.puts[pid].hash) && !(a.Begin? && a.pid == pid)
    ensures var p, now := m.puts[pid], After(m, acts, digest).value;
            && OnItsWay(now, pid, p.hash, p.size, p.verified)
            && (pid in now.puts ==> !now.puts[pid].Refused?)
            && (pid in now.puts && now.puts[pid].Rechecking? ==>
                  Enabled(now, Recheck(pid)) && Next(now, Recheck(pid), digest).puts[pid] == Succeeded(p.hash, p.size))
            && (pid in now.puts && now.puts[pid].Confirming? ==>
                  Enabled(now, Confirm(pid)) && Next(now, Confirm(pid), digest).puts[pid] == Succeeded(p.hash, p.size))
  {
    var p := m.puts[pid];
    assert Holds(m, pid, digest);
    StaysOnItsWay(m, acts, digest, pid);
    AlwaysPublished(m, acts, digest);
    var now := After(m, acts, digest).value;
    hide After, Inv;
    if pid in now.puts && now.puts[pid].Rechecking? { OnItsWayStep(now, Recheck(pid), digest, pid, p.hash, p.size, p.verified); }
    if pid in now.puts && now.puts[pid].Confirming? { OnItsWayStep(now, Confirm(pid), digest, pid, p.hash, p.size, p.verified); }
  }

  lemma {:induction false} StaysOnItsWay(m: Medium, acts: seq<Act>, digest: Digest, pid: nat)
    requires Inv(m, digest) && pid in m.puts && m.puts[pid].Linking? && After(m, acts, digest).Some?
    requires Sound(m.puts[pid].verified, m.puts[pid].hash, m.puts[pid].size, digest)
    requires forall c: Content :: digest(c) == digest(m.puts[pid].verified) ==> c == m.puts[pid].verified
    requires forall a | a in acts :: a != Remove(m.puts[pid].hash) && !(a.Begin? && a.pid == pid)
    ensures OnItsWay(After(m, acts, digest).value, pid, m.puts[pid].hash, m.puts[pid].size, m.puts[pid].verified)
  {
    if acts != [] {
      var p := m.puts[pid];
      hide Inv, Enabled, Next, OnItsWay;
      StaysOnItsWay(m, acts[..|acts| - 1], digest, pid);
      AlwaysPublished(m, acts[..|acts| - 1], digest);
      OnItsWayStep(After(m, acts[..|acts| - 1], digest).value, acts[|acts| - 1], digest, pid, p.hash, p.size, p.verified);
    }
  }

  // ---------------------------------------------------------------- listing

  /** A hash by the two shard directories it is filed under and the rest of its name. */
  datatype Hash = Hash(first: nat, second: nat, rest: nat)

  predicate Lt(a: Hash, b: Hash) {
    a.first < b.first || (a.first == b.first && (a.second < b.second || (a.second == b.second && a.rest < b.rest)))
  }

  /**
   * An entry of a leaf directory: its name if that is a hash, whether it is a regular file, and
   * whether it is still there when its turn comes.
   */
  datatype Entry = Entry(name: Option<Hash>, regular: bool, there: bool)

  datatype Leaf = Leaf(second: nat, entries: seq<Entry>)

  datatype Shard = Shard(first: nat, leaves: seq<Leaf>)

  predicate Canonical(e: Entry, first: nat, second: nat) {
    e.name.Some? && e.regular && e.name.value.first == first && e.name.value.second == second
  }

  predicate Beyond(h: Hash, after: Option<Hash>) {
    after.Some? ==> Lt(after.value, h)
  }

  /** The canonical objects of some entries, of some leaves and of some shards, beyond the cursor. */
  function InEntries(entries: seq<Entry>, first: nat, second: nat, after: Option<Hash>): seq<Hash> {
    if entries == [] then []
    else
      var e := entries[|entries| - 1];
      InEntries(entries[..|entries| - 1], first, second, after)
      + (if Canonical(e, first, second) && e.there && Beyond(e.name.value, after) then [e.name.value] else [])
  }

  function InLeaves(leaves: seq<Leaf>, first: nat, after: Option<Hash>): seq<Hash> {
    if leaves == [] then []
    else
      var l := leaves[|leaves| - 1];
      InLeaves(leaves[..|leaves| - 1], first, after) + InEntries(l.entries, first, l.second, after)
  }

  function InShards(shards: seq<Shard>, after: Option<Hash>): seq<Hash> {
    if shards == [] then []
    else InShards(shards[..|shards| - 1], after) + InLeaves(shards[|shards| - 1].leaves, shards[|shards| - 1].first, after)
  }

  lemma {:induction false} SkippedLeaf(entries: seq<Entry>, first: nat, second: nat, after: Hash)
    requires first < after.first || (first == after.first && second < after.second)
    ensures InEntries(entries, first, second, Some(after)) == []
  {
    if entries != [] { SkippedLeaf(entries[..|entries| - 1], first, second, after); }
  }

  lemma {:induction false} SkippedShard(leaves: seq<Leaf>, first: nat, after: Hash)
    requires first < after.first
    ensures InLeaves(leaves, first, Some(after)) == []
  {
    if leaves != [] {
      SkippedShard(leaves[..|leaves| - 1], first, after);
      SkippedLeaf(leaves[|leaves| - 1].entries, first, leaves[|leaves| - 1].second, after);
    }
  }

  datatype Listing = Listing(objects: seq<Hash>, next: Option<Hash>)

  /** A page of the objects beyond a cursor: all of them, or the first `limit` and the last of those. */
  predicate PageOf(all: seq<Hash>, page: Listing, limit: nat) {
    && page.objects <= all && |page.objects| <= limit
    && (page.next.None? ==> page.objects == all)
    && (page.next.Some? ==> 0 < limit == |page.objects| && page.next.value == page.objects[limit - 1])
  }

  lemma {:induction false} EntriesGrow(entries: seq<Entry>, k: nat, first: nat, second: nat, after: Option<Hash>)
    requires k <= |entries|
    ensures InEntries(entries[..k], first, second, after) <= InEntries(entries, first, second, after)
    decreases |entries|
  {
    if k == |entries| {
      assert entries[..k] == entries;
    } else {
      EntriesGrow(entries[..|entries| - 1], k, first, second, after);
      assert entries[..|entries| - 1][..k] == entries[..k];
    }
  }

  lemma {:induction false} LeavesGrow(leaves: seq<Leaf>, k: nat, first: nat, after: Option<Hash>)
    requires k <= |leaves|
    ensures InLeaves(leaves[..k], first, after) <= InLeaves(leaves, first, after)
    decreases |leaves|
  {
    if k == |leaves| {
      assert leaves[..k] == leaves;
    } else {
      LeavesGrow(leaves[..|leaves| - 1], k, first, after);
      assert leaves[..|leaves| - 1][..k] == leaves[..k];
    }
  }

  lemma {:induction false} ShardsGrow(shards: seq<Shard>, k: nat, after: Option<Hash>)
    requires k <= |shards|
    ensures InShards(shards[..k], after) <= InShards(shards, after)
    decreases |shards|
  {
    if k == |shards| {
      assert shards[..k] == shards;
    } else {
      ShardsGrow(shards[..|shards| - 1], k, after);
      assert shards[..|shards| - 1][..k] == shards[..k];
    }
  }

  /** The entries of one leaf onto a page; `full` when there is one more than fits. */
  method ListLeaf(leaf: Leaf, first: nat, after: Option<Hash>, limit: nat, before: seq<Hash>) returns (objects: seq<Hash>, full: bool)
    requires |before| <= limit
    ensures |objects| <= limit && objects <= before + InEntries(leaf.entries, first, leaf.second, after)
    ensures full ==> |objects| == limit
    ensures !full ==> objects == before + InEntries(leaf.entries, first, leaf.second, after)
  {
    objects := before;
    for k := 0 to |leaf.entries|
      invariant |objects| <= limit
      invariant objects == before + InEntries(leaf.entries[..k], first, leaf.second, after)
    {
      var e := leaf.entries[k];
      assert leaf.entries[..k + 1][..k] == leaf.entries[..k];
      if e.name.Some? && !Beyond(e.name.value, after) {
        continue;
      }
      if e.name.None? || !e.regular || e.name.value.first != first || e.name.value.second != leaf.second {
        continue;
      }
      if |objects| == limit {
        EntriesGrow(leaf.entries, k, first, leaf.second, after);
        return objects, true;
      }
      if !e.there {
        continue;
      }
      objects := objects + [e.name.value];
    }
    assert leaf.entries[..|leaf.entries|] == leaf.entries;
    full := false;
  }

  /** The leaves of one shard onto a page, passing over those the cursor is beyond. */
  method ListShard(shard: Shard, after: Option<Hash>, limit: nat, before: seq<Hash>) returns (objects: seq<Hash>, full: bool)
    requires |before| <= limit
    ensures |objects| <= limit && objects <= before + InLeaves(shard.leaves, shard.first, after)
    ensures full ==> |objects| == limit
    ensures !full ==> objects == before + InLeaves(shard.leaves, shard.first, after)
  {
    hide InEntries;
    objects, full := before, false;
    var leaves := shard.leaves;
    for k := 0 to |leaves|
      invariant |objects| <= limit && objects <= before + InLeaves(leaves[..k], shard.first, after)
      invariant full ==> |objects| == limit
      invariant !full ==> objects == before + InLeaves(leaves[..k], shard.first, after)
    {
      if full {
        LeavesGrow(leaves, k, shard.first, after);
        break;
      }
      assert leaves[..k + 1][..k] == leaves[..k];
      if after.Some? && shard.first == after.value.first && leaves[k].second < after.value.second {
        SkippedLeaf(leaves[k].entries, shard.first, leaves[k].second, after.value);
        continue;
      }
      objects, full := ListLeaf(leaves[k], shard.first, after, limit, objects);
    }
    assert leaves[..|leaves|] == leaves;
  }

  /** A page of the medium: the canonical objects beyond the cursor, as many as fit. */
  method ListObjects(shards: seq<Shard>, after: Option<Hash>, limit: nat) returns (page: Listing)
    requires limit > 0
    ensures PageOf(InShards(shards, after), page, limit)
  {
    hide InLeaves;
    var objects, full := [], false;
    for k := 0 to |shards|
      invariant |objects| <= limit && objects <= InShards(shards[..k], after)
      invariant full ==> |objects| == limit
      invariant !full ==> objects == InShards(shards[..k], after)
    {
      if full {
        ShardsGrow(shards, k, after);
        break;
      }
      assert shards[..k + 1][..k] == shards[..k];
      if after.Some? && shards[k].first < after.value.first {
        SkippedShard(shards[k].leaves, shards[k].first, after.value);
        continue;
      }
      objects, full := ListShard(shards[k], after, limit, objects);
    }
    assert shards[..|shards|] == shards;
    page := Listing(objects, if full then Some(objects[|objects| - 1]) else None);
  }

  // ---------------------------------------------------------------- walking the listing

  predicate Ascending(s: seq<Hash>) {
    forall i, j | 0 <= i < j < |s| :: Lt(s[i], s[j])
  }

  /** Directory reads come sorted by name, and a name occurs once in a directory. */
  predicate SortedEntries(entries: seq<Entry>) {
    forall i, j | 0 <= i < j < |entries| ::
      entries[i].name.Some? && entries[j].name.Some? ==> Lt(entries[i].name.value, entries[j].name.value)
  }

  predicate SortedTree(shards: seq<Shard>) {
    && (forall i, j | 0 <= i < j < |shards| :: shards[i].first < shards[j].first)
    && (forall i | 0 <= i < |shards| :: SortedLeaves(shards[i].leaves))
  }

  predicate SortedLeaves(leaves: seq<Leaf>) {
    && (forall i, j | 0 <= i < j < |leaves| :: leaves[i].second < leaves[j].second)
    && (forall i | 0 <= i < |leaves| :: SortedEntries(leaves[i].entries))
  }

  predicate InLeaf(l: Leaf, first: nat, h: Hash) {
    exists e | e in l.entries :: Canonical(e, first, l.second) && e.there && e.name == Some(h)
  }

  predicate InShard(s: Shard, h: Hash) {
    exists l | l in s.leaves :: InLeaf(l, s.first, h)
  }

  /** A regular file under its own hash's path. */
  predicate OnMedium(shards: seq<Shard>, h: Hash) {
    exists s | s in shards :: InShard(s, h)
  }

  lemma Joined(a: seq<Hash>, b: seq<Hash>)
    requires Ascending(a) && Ascending(b)
    requires forall x, y | x in a && y in b :: Lt(x, y)
    ensures Ascending(a + b)
  {
  }

  lemma {:induction false} EntriesExact(l: Leaf, first: nat, after: Option<Hash>)
    requires SortedEntries(l.entries)
    ensures Ascending(InEntries(l.entries, first, l.second, after))
    ensures forall h :: h in InEntries(l.entries, first, l.second, after) <==> Beyond(h, after) && InLeaf(l, first, h)
    decreases |l.entries|
  {
    if l.entries != [] {
      var l', e := l.(entries := l.entries[..|l.entries| - 1]), l.entries[|l.entries| - 1];
      EntriesExact(l', first, after);
      var mine := if Canonical(e, first, l.second) && e.there && Beyond(e.name.value, after) then [e.name.value] else [];
      forall h ensures h in mine || (Beyond(h, after) && InLeaf(l', first, h)) <==> Beyond(h, after) && InLeaf(l, first, h) {
        assert l.entries == l'.entries + [e];
      }
      Joined(InEntries(l'.entries, first, l.second, after), mine);
    }
  }

  lemma InLeafPrefix(l: Leaf, first: nat, h: Hash)
    requires InLeaf(l, first, h)
    ensures h.first == first && h.second == l.second
  {
  }

  lemma InShardPrefix(s: Shard, h: Hash)
    requires InShard(s, h)
    ensures h.first == s.first && exists l | l in s.leaves :: h.second == l.second
  {
    hide InLeaf;
    var l :| l in s.leaves && InLeaf(l, s.first, h);
    InLeafPrefix(l, s.first, h);
  }

  lemma ShardSplits(s: Shard, h: Hash)
    requires s.leaves != []
    ensures InShard(s, h) <==>
              InShard(s.(leaves := s.leaves[..|s.leaves| - 1]), h) || InLeaf(s.leaves[|s.leaves| - 1], s.first, h)
  {
    hide InLeaf;
    assert s.leaves == s.leaves[..|s.leaves| - 1] + [s.leaves[|s.leaves| - 1]];
  }

  lemma MediumSplits(shards: seq<Shard>, h: Hash)
    requires shards != []
    ensures OnMedium(shards, h) <==> OnMedium(shards[..|shards| - 1], h) || InShard(shards[|shards| - 1], h)
  {
    hide InShard;
    assert shards == shards[..|shards| - 1] + [shards[|shards| - 1]];
  }

  lemma LeavesSorted(leaves: seq<Leaf>)
    requires SortedLeaves(leaves) && leaves != []
    ensures SortedLeaves(leaves[..|leaves| - 1]) && SortedEntries(leaves[|leaves| - 1].entries)
    ensures forall l | l in leaves[..|leaves| - 1] :: l.second < leaves[|leaves| - 1].second
  {
    hide SortedEntries;
  }

  lemma TreeSorted(shards: seq<Shard>)
    requires SortedTree(shards) && shards != []
    ensures SortedTree(shards[..|shards| - 1]) && SortedLeaves(shards[|shards| - 1].leaves)
    ensures forall s | s in shards[..|shards| - 1] :: s.first < shards[|shards| - 1].first
  {
    hide SortedLeaves;
  }

  lemma LeavesApart(s: Shard, x: Hash, y: Hash)
    requires SortedLeaves(s.leaves) && s.leaves != []
    requires InShard(s.(leaves := s.leaves[..|s.leaves| - 1]), x) && InLeaf(s.leaves[|s.leaves| - 1], s.first, y)
    ensures Lt(x, y)
  {
    hide InLeaf, InShard, SortedLeaves;
    LeavesSorted(s.leaves);
    InShardPrefix(s.(leaves := s.leaves[..|s.leaves| - 1]), x);
    InLeafPrefix(s.leaves[|s.leaves| - 1], s.first, y);
  }

  lemma ShardsApart(shards: seq<Shard>, x: Hash, y: Hash)
    requires SortedTree(shards) && shards != []
    requires OnMedium(shards[..|shards| - 1], x) && InShard(shards[|shards| - 1], y)
    ensures Lt(x, y)
  {
    hide InShard, SortedTree;
    TreeSorted(shards);
    var r :| r in shards[..|shards| - 1] && InShard(r, x);
    InShardPrefix(r, x);
    InShardPrefix(shards[|shards| - 1], y);
  }

  lemma {:induction false} LeavesExact(s: Shard, after: Option<Hash>)
    requires SortedLeaves(s.leaves)
    ensures Ascending(InLeaves(s.leaves, s.first, after))
    ensures forall h :: h in InLeaves(s.leaves, s.first, after) <==> Beyond(h, after) && InShard(s, h)
    decreases |s.leaves|
  {
    if s.leaves != [] {
      hide InLeaf, InEntries, InShard, SortedLeaves, SortedEntries, Ascending, Beyond, Lt;
      var s', l := s.(leaves := s.leaves[..|s.leaves| - 1]), s.leaves[|s.leaves| - 1];
      LeavesSorted(s.leaves);
      LeavesExact(s', after);
      EntriesExact(l, s.first, after);
      var earlier, mine := InLeaves(s'.leaves, s.first, after), InEntries(l.entries, s.first, l.second, after);
      forall x, y | x in earlier && y in mine ensures Lt(x, y) { LeavesApart(s, x, y); }
      Joined(earlier, mine);
      forall h ensures h in earlier + mine <==> Beyond(h, after) && InShard(s, h) { ShardSplits(s, h); }
    }
  }

  /** One listing without a limit is every canonical object beyond the cursor, once, in hash order. */
  lemma {:induction false} ListingExact(shards: seq<Shard>, after: Option<Hash>)
    requires SortedTree(shards)
    ensures Ascending(InShards(shards, after))
    ensures forall h :: h in InShards(shards, after) <==> Beyond(h, after) && OnMedium(shards, h)
  {
    if shards != [] {
      hide InShard, InLeaves, SortedTree, SortedLeaves, OnMedium, Ascending, Beyond, Lt;
      var rest, s := shards[..|shards| - 1], shards[|shards| - 1];
      TreeSorted(shards);
      ListingExact(rest, after);
      LeavesExact(s, after);
      var earlier, mine := InShards(rest, after), InLeaves(s.leaves, s.first, after);
      forall x, y | x in earlier && y in mine ensures Lt(x, y) { ShardsApart(shards, x, y); }
      Joined(earlier, mine);
      forall h ensures h in earlier + mine <==> Beyond(h, after) && OnMedium(shards, h) { MediumSplits(shards, h); }
    }
  }

  /** The cursor each page of a walk starts from. */
  function Cursor(pages: seq<Listing>, k: nat): Option<Hash>
    requires k <= |pages|
  {
    if k == 0 then None else pages[k - 1].next
  }

  /**
   * Following `next`, each page read from the medium as it then is: objects may have come or gone
   * since the page before.
   */
  predicate Follows(trees: seq<seq<Shard>>, pages: seq<Listing>, limit: nat) {
    && |trees| == |pages|
    && (forall k | 0 <= k < |pages| :: SortedTree(trees[k]) && PageOf(InShards(trees[k], Cursor(pages, k)), pages[k], limit))
    && (forall k | 0 <= k < |pages| - 1 :: pages[k].next.Some?)
  }

  function Listed(pages: seq<Listing>): seq<Hash> {
    if pages == [] then [] else Listed(pages[..|pages| - 1]) + pages[|pages| - 1].objects
  }

  /** An object that is on the medium at every page until one has listed it. */
  predicate StaysUntilListed(trees: seq<seq<Shard>>, pages: seq<Listing>, h: Hash)
    requires |trees| == |pages|
  {
    forall k | 0 <= k < |pages| :: h !in Listed(pages[..k]) ==> OnMedium(trees[k], h)
  }

  lemma FollowsBefore(trees: seq<seq<Shard>>, pages: seq<Listing>, limit: nat)
    requires Follows(trees, pages, limit) && pages != []
    ensures Follows(trees[..|trees| - 1], pages[..|pages| - 1], limit)
    ensures Cursor(pages[..|pages| - 1], |pages| - 1) == Cursor(pages, |pages| - 1)
    ensures |pages| > 1 ==> pages[|pages| - 2].next.Some?
    ensures PageOf(InShards(trees[|pages| - 1], Cursor(pages, |pages| - 1)), pages[|pages| - 1], limit)
    ensures SortedTree(trees[|pages| - 1])
  {
    hide SortedTree, PageOf, InShards;
    var rest := pages[..|pages| - 1];
    forall k | 0 <= k < |rest| ensures Cursor(rest, k) == Cursor(pages, k) {}
  }

  lemma StaysBefore(trees: seq<seq<Shard>>, pages: seq<Listing>, h: Hash)
    requires |trees| == |pages| > 0 && StaysUntilListed(trees, pages, h)
    ensures StaysUntilListed(trees[..|trees| - 1], pages[..|pages| - 1], h)
    ensures h in Listed(pages[..|pages| - 1]) || OnMedium(trees[|pages| - 1], h)
  {
    hide OnMedium, Listed;
    var rest := pages[..|pages| - 1];
    forall k | 0 <= k < |rest| ensures rest[..k] == pages[..k] {}
  }

  /** One page appended to the ones before it. */
  lemma PageAppends(listed: seq<Hash>, all: seq<Hash>, page: Listing, cursor: Option<Hash>, limit: nat)
    requires Ascending(listed) && Ascending(all) && PageOf(all, page, limit)
    requires listed != [] ==> cursor.Some?
    requires cursor.Some? ==> forall h | h in listed :: !Lt(cursor.value, h)
    requires forall h | h in all :: Beyond(h, cursor)
    ensures Ascending(listed + page.objects)
    ensures page.next.Some? ==> forall h | h in listed + page.objects :: !Lt(page.next.value, h)
    ensures page.next.Some? ==> Beyond(page.next.value, cursor)
  {
    forall x, y | x in listed && y in page.objects ensures Lt(x, y) {
      assert y in all;
    }
    Joined(listed, page.objects);
    if page.next.Some? {
      var last := page.objects[limit - 1];
      assert last in all;
      forall h | h in listed + page.objects ensures !Lt(last, h) {
        if h in page.objects {
          var i :| 0 <= i < |page.objects| && page.objects[i] == h;
          assert i < limit - 1 ==> Lt(page.objects[i], page.objects[limit - 1]);
        } else {
          assert Lt(h, last);
        }
      }
    }
  }

  lemma PageCovers(all: seq<Hash>, page: Listing, limit: nat, h: Hash)
    requires Ascending(all) && PageOf(all, page, limit) && h in all
    ensures h in page.objects || (page.next.Some? && Lt(page.next.value, h))
  {
    var i :| 0 <= i < |all| && all[i] == h;
    if page.next.Some? && i >= limit { assert Lt(all[limit - 1], all[i]); }
  }

  /** A walk lists in increasing order, up to its cursor. */
  lemma {:induction false} WalkAscends(trees: seq<seq<Shard>>, pages: seq<Listing>, limit: nat)
    requires Follows(trees, pages, limit)
    ensures Ascending(Listed(pages))
    ensures Cursor(pages, |pages|).Some? ==> forall h | h in Listed(pages) :: !Lt(Cursor(pages, |pages|).value, h)
    decreases |pages|
  {
    if pages != [] {
      hide SortedTree, PageOf, InShards, Ascending, OnMedium, Follows, Lt;
      var n := |pages| - 1;
      FollowsBefore(trees, pages, limit);
      WalkAscends(trees[..n], pages[..n], limit);
      ListingExact(trees[n], Cursor(pages, n));
      PageAppends(Listed(pages[..n]), InShards(trees[n], Cursor(pages, n)), pages[n], Cursor(pages, n), limit);
    }
  }

  /** An object that stays until it is listed has been listed, or lies beyond the cursor. */
  lemma {:induction false} WalkCovers(trees: seq<seq<Shard>>, pages: seq<Listing>, limit: nat, h: Hash)
    requires Follows(trees, pages, limit) && StaysUntilListed(trees, pages, h)
    ensures h in Listed(pages) || pages == [] || (Cursor(pages, |pages|).Some? && Lt(Cursor(pages, |pages|).value, h))
    decreases |pages|
  {
    if pages != [] {
      hide SortedTree, PageOf, InShards, Ascending, OnMedium, StaysUntilListed, Follows, Lt;
      var n := |pages| - 1;
      FollowsBefore(trees, pages, limit);
      StaysBefore(trees, pages, h);
      WalkCovers(trees[..n], pages[..n], limit, h);
      ListingExact(trees[n], Cursor(pages, n));
      if h !in Listed(pages[..n]) { PageCovers(InShards(trees[n], Cursor(pages, n)), pages[n], limit, h); }
    }
  }

  lemma PageIsListed(all: seq<Hash>, page: Listing, limit: nat, h: Hash)
    requires PageOf(all, page, limit) && h in page.objects
    ensures h in all
  {
  }

  /** What is listed was on the medium when its page was read. */
  lemma {:induction false} WalkListed(trees: seq<seq<Shard>>, pages: seq<Listing>, limit: nat, h: Hash)
    requires Follows(trees, pages, limit) && h in Listed(pages)
    ensures exists k | 0 <= k < |pages| :: OnMedium(trees[k], h) && h in pages[k].objects
    decreases |pages|
  {
    assert |trees| == |pages| && pages != [];
    hide SortedTree, PageOf, InShards, Ascending, OnMedium, Follows;
    var n := |pages| - 1;
    FollowsBefore(trees, pages, limit);
    if h in pages[n].objects {
      ListingExact(trees[n], Cursor(pages, n));
      PageIsListed(InShards(trees[n], Cursor(pages, n)), pages[n], limit, h);
    } else {
      WalkListed(trees[..n], pages[..n], limit, h);
      var k :| 0 <= k < n && OnMedium(trees[..n][k], h) && h in pages[..n][k].objects;
      assert OnMedium(trees[k], h) && h in pages[k].objects;
    }
  }

  /**
   * Following `next` lists every object at most once and in increasing hash order, whatever
   * happens to the medium meanwhile; an object that is there until it is listed has been listed
   * or lies beyond the cursor, so a walk to the end lists it.
   */
  lemma WalkExact(trees: seq<seq<Shard>>, pages: seq<Listing>, limit: nat)
    requires Follows(trees, pages, limit)
    ensures Ascending(Listed(pages))
    ensures Cursor(pages, |pages|).Some? ==> forall h | h in Listed(pages) :: !Lt(Cursor(pages, |pages|).value, h)
    ensures forall h | StaysUntilListed(trees, pages, h) ::
              h in Listed(pages) || pages == [] || (Cursor(pages, |pages|).Some? && Lt(Cursor(pages, |pages|).value, h))
    ensures forall h | h in Listed(pages) :: exists k | 0 <= k < |pages| :: OnMedium(trees[k], h) && h in pages[k].objects
  {
    assert |trees| == |pages|;
    hide Ascending, Follows, StaysUntilListed, OnMedium, Listed, Lt, Cursor;
    WalkAscends(trees, pages, limit);
    forall h | StaysUntilListed(trees, pages, h)
      ensures h in Listed(pages) || pages == [] || (Cursor(pages, |pages|).Some? && Lt(Cursor(pages, |pages|).value, h))
    {
      WalkCovers(trees, pages, limit, h);
    }
    forall h | h in Listed(pages) ensures exists k | 0 <= k < |pages| :: OnMedium(trees[k], h) && h in pages[k].objects {
      WalkListed(trees, pages, limit, h);
    }
  }
}
