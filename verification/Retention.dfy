/**
One destructive maintenance pass over the blobs: catalog rows no run references, then objects the
catalog never knew, within a count and a byte budget. Any deletion of a row and any removal of an
object may fail; a failure is a problem in the report and the pass goes on.
*/
module Retention {
  import opened Protocol

  const CAS_PAGE := 200

  datatype Entry = Entry(sizeBytes: nat, modifiedAt: int)

  datatype Options = Options(maxBlobs: nat, maxUncatalogued: nat, maxBytes: nat, after: Option<nat>, orphansBefore: Option<int>)

  function Sum(sizes: seq<nat>): nat {
    if sizes == [] then 0 else Sum(sizes[..|sizes| - 1]) + sizes[|sizes| - 1]
  }

  /** What the byte budget allows: its own size, or the first object alone when that is larger. */
  ghost predicate WithinBudget(sizes: seq<nat>, maxBytes: nat) {
    sizes == [] || Sum(sizes) <= if sizes[0] > maxBytes then sizes[0] else maxBytes
  }

  /** The budget as it is kept: the bytes left, possibly overdrawn by the first object. */
  ghost predicate Kept(sizes: seq<nat>, bytes: int, maxBytes: nat) {
    && bytes == maxBytes - Sum(sizes)
    && (sizes != [] ==> bytes >= 0 || Sum(sizes) == sizes[0])
  }

  lemma KeptWithin(sizes: seq<nat>, bytes: int, maxBytes: nat)
    requires Kept(sizes, bytes, maxBytes)
    ensures WithinBudget(sizes, maxBytes)
  {
  }

  lemma KeptNext(sizes: seq<nat>, bytes: int, maxBytes: nat, size: nat)
    requires Kept(sizes, bytes, maxBytes) && (sizes == [] || bytes >= size)
    ensures Kept(sizes + [size], bytes - size, maxBytes)
  {
    assert (sizes + [size])[..|sizes|] == sizes;
    assert Sum([]) == 0;
  }

  lemma {:induction false} SumGrows(a: seq<nat>, b: seq<nat>)
    requires a <= b
    ensures Sum(a) <= Sum(b)
  {
    if a == b {
    } else {
      assert a <= b[..|b| - 1];
      SumGrows(a, b[..|b| - 1]);
    }
  }

  /** Some object on the list or on the medium does not fit in what the examined ones left. */
  ghost predicate OneTooMany(sizes: seq<nat>, maxBytes: nat, catalog: map<nat, nat>, objects: map<nat, Entry>) {
    && sizes != []
    && ((exists h | h in catalog :: Sum(sizes) + catalog[h] > maxBytes)
        || (exists h | h in objects :: Sum(sizes) + objects[h].sizeBytes > maxBytes))
  }

  lemma ObjectTooMany(sizes: seq<nat>, maxBytes: nat, objects: map<nat, Entry>, h: nat)
    requires sizes != [] && h in objects && Sum(sizes) + objects[h].sizeBytes > maxBytes
    ensures OneTooMany(sizes, maxBytes, map[], objects)
  {
  }

  lemma RowTooMany(sizes: seq<nat>, maxBytes: nat, catalog: map<nat, nat>, objects: map<nat, Entry>, h: nat)
    requires sizes != [] && h in catalog && Sum(sizes) + catalog[h] > maxBytes
    ensures OneTooMany(sizes, maxBytes, catalog, objects)
  {
  }

  lemma StillTooMany(a: seq<nat>, b: seq<nat>, maxBytes: nat, catalog: map<nat, nat>, objects: map<nat, Entry>,
                     catalog': map<nat, nat>, objects': map<nat, Entry>)
    requires OneTooMany(a, maxBytes, catalog, objects) && a <= b
    requires forall h | h in catalog :: h in catalog' && catalog'[h] == catalog[h]
    requires forall h | h in objects :: h in objects' && objects'[h] == objects[h]
    ensures OneTooMany(b, maxBytes, catalog', objects')
  {
    SumGrows(a, b);
    if h :| h in catalog && Sum(a) + catalog[h] > maxBytes {
      assert Sum(b) + catalog'[h] > maxBytes;
    } else {
      var h :| h in objects && Sum(a) + objects[h].sizeBytes > maxBytes;
      assert Sum(b) + objects'[h].sizeBytes > maxBytes;
    }
  }

  // ---------------------------------------------------------------- bounded listings

  predicate Beyond(h: nat, after: Option<nat>) {
    after.Some? ==> h > after.value
  }

  ghost predicate Ascending(s: seq<nat>) {
    forall i, j | 0 <= i < j < |s| :: s[i] < s[j]
  }

  /** The least `limit` members beyond the cursor, and whether there are more. */
  method Least(members: set<nat>, after: Option<nat>, limit: nat) returns (listed: seq<nat>, more: bool)
    ensures Ascending(listed) && |listed| <= limit && (more ==> |listed| == limit)
    ensures forall h | h in listed :: h in members && Beyond(h, after)
    ensures forall h | h in members && Beyond(h, after) && h !in listed :: more && forall g | g in listed :: g < h
    ensures more <==> |set h | h in members && Beyond(h, after)| > limit
  {
    listed := [];
    var left := set h | h in members && Beyond(h, after);
    ghost var total := |left|;
    while left != {} && |listed| < limit
      invariant Ascending(listed) && |listed| <= limit && left <= members && |listed| + |left| == total
      invariant forall h | h in listed :: h in members && Beyond(h, after) && h !in left
      invariant forall h | h in members && Beyond(h, after) && h !in listed :: h in left
      invariant forall h | h in left :: Beyond(h, after)
      invariant forall g, h | g in listed && h in left :: g < h
      decreases |left|
    {
      var h := Smallest(left);
      assert forall i | 0 <= i < |listed| :: listed[i] in listed;
      listed := listed + [h];
      left := left - {h};
    }
    more := left != {};
  }

  method Smallest(s: set<nat>) returns (h: nat)
    requires s != {}
    ensures h in s && forall k | k in s :: h <= k
  {
    h :| h in s;
    var left := s - {h};
    while left != {}
      invariant left <= s && h in s && forall k | k in s && k !in left :: h <= k
      decreases |left|
    {
      var k :| k in left;
      if k < h { h := k; }
      left := left - {k};
    }
  }

  // ---------------------------------------------------------------- the pass

  /** The objects the catalog does not know that are older than the cutoff. */
  function Orphans(objects: map<nat, Entry>, catalog: map<nat, nat>, cutoff: int): set<nat> {
    set h | h in objects && h !in catalog && objects[h].modifiedAt < cutoff
  }

  /** An object the sweep should still take. */
  ghost predicate OrphanLeft(objects: map<nat, Entry>, catalog: map<nat, nat>, cutoff: int) {
    exists h | h in objects :: h !in catalog && objects[h].modifiedAt < cutoff
  }

  lemma OrphanIsLeft(objects: map<nat, Entry>, catalog: map<nat, nat>, cutoff: int, h: nat)
    requires h in objects && h !in catalog && objects[h].modifiedAt < cutoff
    ensures OrphanLeft(objects, catalog, cutoff)
  {
  }

  /** Of the examined objects `rows` were catalogued and the others were not; neither count is exceeded. */
  ghost predicate Counted(rows: nat, examined: nat, o: Options) {
    rows <= o.maxBlobs && rows <= examined <= rows + o.maxUncatalogued
  }

  /** Nothing but some of `gone` is missing, and nothing else changed. */
  ghost predicate Thinned(was: map<nat, Entry>, now: map<nat, Entry>, gone: set<nat>) {
    && now.Keys <= was.Keys
    && (forall h | h in now :: now[h] == was[h])
    && (forall h | h in was && h !in gone :: h in now)
  }

  lemma ThinnedOne(was: map<nat, Entry>, now: map<nat, Entry>, gone: set<nat>, h: nat)
    requires Thinned(was, now, gone) && h in gone
    ensures Thinned(was, now - {h}, gone)
  {
  }

  lemma OrphanOnPage(page: seq<nat>, i: nat, was: map<nat, Entry>, now: map<nat, Entry>, catalog: map<nat, nat>, cutoff: int)
    requires Thinned(was, now, (set h | h in page) * Orphans(was, catalog, cutoff))
    requires i < |page| && page[i] in now && page[i] !in catalog && now[page[i]].modifiedAt < cutoff
    ensures page[i] in was && was[page[i]] == now[page[i]]
    ensures Thinned(was, now - {page[i]}, (set h | h in page) * Orphans(was, catalog, cutoff))
  {
    ThinnedOne(was, now, (set h | h in page) * Orphans(was, catalog, cutoff), page[i]);
  }

  /** The rest of a page is still there. */
  ghost predicate Ahead(page: seq<nat>, i: nat, objects: map<nat, Entry>) {
    Ascending(page) && forall j | i <= j < |page| :: page[j] in objects
  }

  lemma AheadNext(page: seq<nat>, i: nat, objects: map<nat, Entry>, now: map<nat, Entry>)
    requires Ahead(page, i, objects) && i < |page| && (now == objects || now == objects - {page[i]})
    ensures Ahead(page, i + 1, now)
  {
  }

  lemma AheadHere(page: seq<nat>, i: nat, objects: map<nat, Entry>)
    requires Ahead(page, i, objects) && i < |page|
    ensures page[i] in objects
  {
  }

  lemma ThinnedAt(was: map<nat, Entry>, now: map<nat, Entry>, gone: set<nat>, h: nat)
    requires Thinned(was, now, gone) && h in now
    ensures h in was && was[h] == now[h]
  {
  }

  /** Removing unknown objects of a page removes only orphans. */
  lemma Merged(was: map<nat, Entry>, now: map<nat, Entry>, next: map<nat, Entry>, page: seq<nat>, catalog: map<nat, nat>, cutoff: int)
    requires Thinned(was, now, Orphans(was, catalog, cutoff))
    requires Thinned(now, next, (set h | h in page) * Orphans(now, catalog, cutoff))
    ensures Thinned(was, next, Orphans(was, catalog, cutoff))
  {
  }

  lemma Widened(sizes: seq<nat>, maxBytes: nat, now: map<nat, Entry>, was: map<nat, Entry>, orphans: set<nat>)
    requires OneTooMany(sizes, maxBytes, map[], now) && Thinned(was, now, orphans)
    ensures OneTooMany(sizes, maxBytes, map[], was)
  {
    StillTooMany(sizes, sizes, maxBytes, map[], now, map[], was);
  }

  /** What a sweep of a page owes: each listed object still there is known or young. */
  ghost predicate Clear(listed: seq<nat>, objects: map<nat, Entry>, catalog: map<nat, nat>, cutoff: int) {
    forall h | h in listed && h in objects :: h in catalog || objects[h].modifiedAt >= cutoff
  }

  lemma ClearNext(listed: seq<nat>, h: nat, objects: map<nat, Entry>, now: map<nat, Entry>, catalog: map<nat, nat>, cutoff: int)
    requires Clear(listed, objects, catalog, cutoff)
    requires now == objects || now == objects - {h}
    requires h in now ==> h in catalog || now[h].modifiedAt >= cutoff
    ensures Clear(listed + [h], now, catalog, cutoff)
  {
  }

  /** Every object up to the cursor that is still there is known or young. */
  ghost predicate Swept(cursor: Option<nat>, objects: map<nat, Entry>, catalog: map<nat, nat>, cutoff: int) {
    forall h | h in objects && !Beyond(h, cursor) :: h in catalog || objects[h].modifiedAt >= cutoff
  }

  ghost predicate Untouched(cursor: Option<nat>, was: map<nat, Entry>, now: map<nat, Entry>) {
    forall h | h in was && Beyond(h, cursor) :: h in now
  }

  /** What `Least` says of a page of some objects. */
  ghost predicate PageOf(page: seq<nat>, more: bool, objects: map<nat, Entry>, cursor: Option<nat>) {
    && Ascending(page)
    && (forall h | h in page :: h in objects && Beyond(h, cursor))
    && (forall h | h in objects && Beyond(h, cursor) && h !in page :: more && forall g | g in page :: g < h)
  }

  lemma PagePassed(page: seq<nat>, more: bool, cursor: Option<nat>, was: map<nat, Entry>, now: map<nat, Entry>, catalog: map<nat, nat>, cutoff: int)
    requires PageOf(page, more, was, cursor) && Swept(cursor, was, catalog, cutoff) && Clear(page, now, catalog, cutoff)
    requires Thinned(was, now, (set h | h in page) * Orphans(was, catalog, cutoff)) && (more ==> page != [])
    ensures if more then Swept(Some(page[|page| - 1]), now, catalog, cutoff)
            else forall h | h in now :: h in catalog || now[h].modifiedAt >= cutoff
  {
    if more {
      var last := page[|page| - 1];
      assert last in page;
      forall h | h in now && !Beyond(h, Some(last)) ensures h in catalog || now[h].modifiedAt >= cutoff {
        assert h in was;
      }
    }
  }

  lemma PageUntouched(page: seq<nat>, more: bool, cursor: Option<nat>, first: map<nat, Entry>, was: map<nat, Entry>, now: map<nat, Entry>, gone: set<nat>)
    requires PageOf(page, more, was, cursor) && Untouched(cursor, first, was) && page != []
    requires Thinned(was, now, gone) && forall h | h in gone :: h in page
    ensures Untouched(Some(page[|page| - 1]), first, now)
    ensures Beyond(page[|page| - 1], cursor) && page[|page| - 1] in was
  {
    var last := page[|page| - 1];
    assert last in page && forall k | 0 <= k < |page| :: page[k] <= last;
    forall h | h in first && Beyond(h, Some(last)) ensures h in now {
      assert Beyond(h, cursor) && h in was;
      assert h !in page;
    }
  }

  /** How many rows no run refers to lie beyond the cursor. */
  ghost function Listable(catalog: map<nat, nat>, referenced: set<nat>, after: Option<nat>): nat {
    |set h | h in catalog && h !in referenced && Beyond(h, after)|
  }

  class Maintenance {
    var catalog: map<nat, nat>
    var objects: map<nat, Entry>
    const referenced: set<nat>
    var problems: nat
    var truncated: bool
    /** The sizes of the objects examined, in order. */
    var examined: seq<nat>
    var bytes: int

    constructor (catalog: map<nat, nat>, objects: map<nat, Entry>, referenced: set<nat>)
      ensures this.catalog == catalog && this.objects == objects && this.referenced == referenced
      ensures problems == 0 && !truncated && examined == [] && bytes == 0
    {
      this.catalog, this.objects, this.referenced := catalog, objects, referenced;
      problems, truncated, examined, bytes := 0, false, [], 0;
    }

    /** Nothing but the hashes given has gone, and nothing has changed. */
    twostate predicate OnlyGone(hashes: iset<nat>)
      reads this
    {
      && catalog.Keys <= old(catalog).Keys && objects.Keys <= old(objects).Keys
      && (forall h | h in catalog :: catalog[h] == old(catalog)[h])
      && (forall h | h in objects :: objects[h] == old(objects)[h])
      && (forall h | h in old(catalog) && h !in hashes :: h in catalog)
      && (forall h | h in old(objects) && h !in hashes :: h in objects)
    }

    /** One blob: its row first, if it has one and nothing refers to it, then its object. */
    method Reclaim(h: nat, catalogued: bool)
      requires catalogued <==> h in catalog
      modifies this`catalog, this`objects, this`problems
      ensures OnlyGone(iset{h})
      ensures catalogued && h in referenced ==> catalog == old(catalog) && objects == old(objects)
      ensures problems >= old(problems)
      ensures problems == old(problems) ==> h !in catalog && h !in objects
    {
      if catalogued {
        var fails: bool := *;
        if fails || h in referenced {
          problems := problems + 1;
          return;
        }
        catalog := catalog - {h};
      }
      RemoveObject(h);
    }

    /** The object itself: gone, or a problem. */
    method RemoveObject(h: nat)
      modifies this`objects, this`problems
      ensures problems >= old(problems) && (objects == old(objects) || objects == old(objects) - {h})
      ensures problems == old(problems) ==> h !in objects
    {
      var stuck: bool := *;
      if stuck {
        problems := problems + 1;
        return;
      }
      objects := objects - {h};
    }

    /** An object may be examined when it is the first or still fits; the budget is then charged. */
    method Examine(size: nat, ghost maxBytes: nat) returns (fits: bool)
      requires Kept(examined, bytes, maxBytes)
      modifies this`examined, this`bytes
      ensures Kept(examined, bytes, maxBytes)
      ensures fits <==> old(examined) == [] || old(bytes) >= size
      ensures !fits ==> examined != [] && Sum(examined) + size > maxBytes
      ensures examined == if fits then old(examined) + [size] else old(examined)
      ensures bytes == if fits then old(bytes) - size else old(bytes)
    {
      if examined != [] && bytes < size {
        return false;
      }
      KeptNext(examined, bytes, maxBytes, size);
      examined := examined + [size];
      bytes := bytes - size;
      return true;
    }

    /** One orphan: charged to the budget and removed, unless it does not fit. */
    method Collect(h: nat, ghost maxBytes: nat) returns (taken: bool)
      requires Kept(examined, bytes, maxBytes) && h in objects
      modifies this`objects, this`problems, this`examined, this`bytes
      ensures Kept(examined, bytes, maxBytes) && problems >= old(problems)
      ensures examined == if taken then old(examined) + [old(objects)[h].sizeBytes] else old(examined)
      ensures !taken ==> examined != [] && Sum(examined) + old(objects)[h].sizeBytes > maxBytes && objects == old(objects) && problems == old(problems)
      ensures objects == old(objects) || objects == old(objects) - {h}
      ensures taken && problems == old(problems) ==> h !in objects
    {
      hide Kept, Sum;
      taken := Examine(objects[h].sizeBytes, maxBytes);
      if taken {
        RemoveObject(h);
      }
    }

    /** Catalogued blobs no run references. */
    method SweepCatalog(o: Options)
      requires Kept(examined, bytes, o.maxBytes) && problems == 0 && !truncated
      modifies this
      ensures OnlyGone(iset h | h in old(catalog) && h !in referenced)
      ensures Kept(examined, bytes, o.maxBytes)
      ensures problems == 0 && !truncated && o.after.None? ==> forall h | h in catalog :: h in referenced
      ensures old(examined) <= examined && |examined| <= |old(examined)| + o.maxBlobs
      ensures truncated ==> Listable(old(catalog), referenced, o.after) > o.maxBlobs || OneTooMany(examined, o.maxBytes, old(catalog), old(objects))
    {
      hide Kept, OneTooMany, Ascending;
      var rows := set h | h in catalog && h !in referenced;
      var listed, more := Least(rows, o.after, o.maxBlobs);
      if more {
        assert (set h | h in rows && Beyond(h, o.after)) == (set h | h in catalog && h !in referenced && Beyond(h, o.after));
        truncated := true;
      }
      var full := SweepRows(listed, o.maxBytes);
      if full {
        truncated := true;
      }
    }

    /** The rows one statement listed; true when the byte budget ended the phase. */
    method SweepRows(listed: seq<nat>, ghost maxBytes: nat) returns (full: bool)
      requires Kept(examined, bytes, maxBytes) && Ascending(listed) && forall h | h in listed :: h in catalog && h !in referenced
      modifies this`catalog, this`objects, this`problems, this`examined, this`bytes
      ensures OnlyGone(iset h | h in listed) && problems >= old(problems)
      ensures Kept(examined, bytes, maxBytes)
      ensures problems == old(problems) && !full ==> forall h | h in listed :: h !in catalog
      ensures old(examined) <= examined && |examined| <= |old(examined)| + |listed|
      ensures full ==> OneTooMany(examined, maxBytes, old(catalog), old(objects))
    {
      assert forall j | 0 <= j < |listed| :: listed[j] in listed;
      assert forall i, j | 0 <= i < j < |listed| :: listed[i] != listed[j];
      hide Kept, OneTooMany, Sum, Ascending;
      for i := 0 to |listed|
        invariant OnlyGone(iset h | h in listed) && problems >= old(problems)
        invariant Kept(examined, bytes, maxBytes)
        invariant old(examined) <= examined && |examined| <= |old(examined)| + i
        invariant forall j | i <= j < |listed| :: listed[j] in catalog
        invariant problems == old(problems) ==> forall j | 0 <= j < i :: listed[j] !in catalog
      {
        var fits := Examine(catalog[listed[i]], maxBytes);
        if !fits {
          RowTooMany(examined, maxBytes, old(catalog), old(objects), listed[i]);
          return true;
        }
        Reclaim(listed[i], true);
      }
      return false;
    }

    /** Objects the catalog never knew, older than the cutoff, page by page. */
    method SweepObjects(o: Options)
      requires Kept(examined, bytes, o.maxBytes) && o.orphansBefore.Some?
      modifies this`objects, this`problems, this`examined, this`bytes, this`truncated
      ensures Thinned(old(objects), objects, Orphans(old(objects), catalog, o.orphansBefore.value))
      ensures Kept(examined, bytes, o.maxBytes)
      ensures problems >= old(problems) && (old(truncated) ==> truncated)
      ensures problems == old(problems) && !truncated ==>
                forall h | h in objects :: h in catalog || objects[h].modifiedAt >= o.orphansBefore.value
      ensures old(examined) <= examined && |examined| <= |old(examined)| + o.maxUncatalogued
      ensures truncated && !old(truncated) ==>
                || (|examined| == |old(examined)| + o.maxUncatalogued && OrphanLeft(objects, catalog, o.orphansBefore.value))
                || OneTooMany(examined, o.maxBytes, map[], old(objects))
    {
      hide Kept, OneTooMany, Thinned, OrphanLeft;
      var full, remaining := Enumerate(o.orphansBefore.value, o.maxUncatalogued, o.maxBytes);
      if full {
        truncated := true;
      }
    }

    /** The enumeration; true when a budget ended it before the last page. */
    method Enumerate(cutoff: int, count: nat, ghost maxBytes: nat) returns (full: bool, remaining: nat)
      requires Kept(examined, bytes, maxBytes)
      modifies this`objects, this`problems, this`examined, this`bytes
      ensures Thinned(old(objects), objects, Orphans(old(objects), catalog, cutoff))
      ensures Kept(examined, bytes, maxBytes) && problems >= old(problems)
      ensures problems == old(problems) && !full ==> forall h | h in objects :: h in catalog || objects[h].modifiedAt >= cutoff
      ensures remaining <= count && old(examined) <= examined && |examined| == |old(examined)| + count - remaining
      ensures full ==> (remaining == 0 && OrphanLeft(objects, catalog, cutoff)) || OneTooMany(examined, maxBytes, map[], old(objects))
    {
      remaining := count;
      var cursor: Option<nat> := None;
      ghost var beyond := set h | h in objects && Beyond(h, cursor);
      ghost var orphans := Orphans(objects, catalog, cutoff);
      assert Thinned(old(objects), objects, orphans) && Swept(cursor, objects, catalog, cutoff) && Untouched(cursor, old(objects), objects);
      hide Kept, OneTooMany, Sum, Thinned, Swept, Untouched, Clear;
      while true
        invariant Thinned(old(objects), objects, orphans)
        invariant Kept(examined, bytes, maxBytes) && problems >= old(problems)
        invariant remaining <= count && old(examined) <= examined && |examined| == |old(examined)| + count - remaining
        invariant problems == old(problems) ==> Swept(cursor, objects, catalog, cutoff)
        invariant Untouched(cursor, old(objects), objects)
        invariant beyond == set h | h in old(objects) && Beyond(h, cursor)
        decreases |beyond|
      {
        var page, more := Least(objects.Keys, cursor, CAS_PAGE);
        ghost var was := objects;
        assert PageOf(page, more, was, cursor);
        full, remaining := SweepPage(page, cutoff, remaining, maxBytes);
        Merged(old(objects), was, objects, page, catalog, cutoff);
        if full {
          if OneTooMany(examined, maxBytes, map[], was) { Widened(examined, maxBytes, was, old(objects), orphans); }
          return;
        }
        if problems == old(problems) { PagePassed(page, more, cursor, was, objects, catalog, cutoff); }
        if !more {
          return;
        }
        var last := page[|page| - 1];
        PageUntouched(page, more, cursor, old(objects), was, objects, (set h | h in page) * Orphans(was, catalog, cutoff));
        ThinnedAt(old(objects), was, orphans, last);
        ghost var rest := set h | h in old(objects) && Beyond(h, Some(last));
        Fewer(rest, beyond, last);
        beyond := rest;
        cursor := Some(last);
      }
    }

    /** One page; true, with what is left of the count, when a budget ended the phase. */
    method SweepPage(page: seq<nat>, cutoff: int, count: nat, ghost maxBytes: nat) returns (ended: bool, remaining: nat)
      requires Kept(examined, bytes, maxBytes) && Ascending(page) && forall h | h in page :: h in objects
      modifies this`objects, this`problems, this`examined, this`bytes
      ensures Thinned(old(objects), objects, (set h | h in page) * Orphans(old(objects), catalog, cutoff)) && problems >= old(problems)
      ensures Kept(examined, bytes, maxBytes)
      ensures problems == old(problems) && !ended ==> Clear(page, objects, catalog, cutoff)
      ensures remaining <= count && old(examined) <= examined && |examined| == |old(examined)| + count - remaining
      ensures ended ==> (remaining == 0 && OrphanLeft(objects, catalog, cutoff)) || OneTooMany(examined, maxBytes, map[], old(objects))
    {
      assert Ahead(page, 0, objects);
      var known := set h | h in page && h in catalog;
      ghost var unknown := (set h | h in page) * Orphans(objects, catalog, cutoff);
      remaining := count;
      assert Thinned(old(objects), objects, unknown) && Clear(page[..0], objects, catalog, cutoff);
      hide Kept, OneTooMany, Sum, Ascending, Thinned, Clear, Orphans, Ahead;
      for i := 0 to |page|
        invariant Thinned(old(objects), objects, unknown) && problems >= old(problems)
        invariant Kept(examined, bytes, maxBytes)
        invariant remaining <= count && old(examined) <= examined && |examined| == |old(examined)| + count - remaining
        invariant Ahead(page, i, objects)
        invariant problems == old(problems) ==> Clear(page[..i], objects, catalog, cutoff)
      {
        var h := page[i];
        ghost var was := objects;
        AheadHere(page, i, objects);
        assert page[..i + 1] == page[..i] + [h];
        if h in known || objects[h].modifiedAt >= cutoff {
          if problems == old(problems) { ClearNext(page[..i], h, was, objects, catalog, cutoff); }
          AheadNext(page, i, was, objects);
          continue;
        }
        OrphanOnPage(page, i, old(objects), objects, catalog, cutoff);
        if remaining == 0 {
          OrphanIsLeft(objects, catalog, cutoff, h);
          return true, remaining;
        }
        var taken := Collect(h, maxBytes);
        if !taken {
          ObjectTooMany(examined, maxBytes, old(objects), h);
          return true, remaining;
        }
        remaining := remaining - 1;
        AheadNext(page, i, was, objects);
        if problems == old(problems) { ClearNext(page[..i], h, was, objects, catalog, cutoff); }
      }
      assert page[..|page|] == page;
      ended := false;
    }

    /**
     * The whole pass. What runs refer to stays, and so does an object the catalog never knew unless
     * it is older than the cutoff; the bytes and the objects examined stay within
     * the budgets; a pass with an orphan cutoff and no cursor that reports neither truncation nor a
     * problem leaves only referenced rows and only catalogued or young objects; and truncation is
     * reported only when more rows were listed than the count allows, when the count of the others
     * ran out with an old orphan left, or when an object did not fit.
     */
    method Pass(o: Options)
      requires problems == 0 && !truncated && examined == []
      requires referenced <= catalog.Keys
      modifies this
      ensures OnlyGone(iset h | h !in referenced)
      ensures forall h | h in old(objects) && h !in objects ::
                h in old(catalog) || (o.orphansBefore.Some? && old(objects)[h].modifiedAt < o.orphansBefore.value)
      ensures WithinBudget(examined, o.maxBytes)
      ensures problems == 0 && !truncated && o.after.None? && o.orphansBefore.Some? ==>
                && catalog.Keys == referenced
                && forall h | h in objects :: h in referenced || objects[h].modifiedAt >= o.orphansBefore.value
      ensures exists rows: nat :: Counted(rows, |examined|, o) && (truncated ==>
                || Listable(old(catalog), referenced, o.after) > o.maxBlobs
                || (o.orphansBefore.Some? && |examined| == rows + o.maxUncatalogued && OrphanLeft(objects, catalog, o.orphansBefore.value))
                || OneTooMany(examined, o.maxBytes, old(catalog), old(objects)))
    {
      bytes := o.maxBytes;
      assert Kept(examined, bytes, o.maxBytes);
      SweepCatalog(o);
      ghost var swept, some, there := truncated, examined, objects;
      if o.orphansBefore.Some? {
        SweepObjects(o);
      }
      if swept && OneTooMany(some, o.maxBytes, old(catalog), old(objects)) {
        StillTooMany(some, examined, o.maxBytes, old(catalog), old(objects), old(catalog), old(objects));
      }
      if OneTooMany(examined, o.maxBytes, map[], there) {
        StillTooMany(examined, examined, o.maxBytes, map[], there, old(catalog), old(objects));
      }
      KeptWithin(examined, bytes, o.maxBytes);
      assert Counted(|some|, |examined|, o);
    }
  }

  lemma Fewer(a: set<nat>, b: set<nat>, x: nat)
    requires a <= b && x in b && x !in a
    ensures |a| < |b|
  {
    NoMore(a, b - {x});
  }

  lemma {:induction false} NoMore(a: set<nat>, b: set<nat>)
    requires a <= b
    ensures |a| <= |b|
  {
    if a != {} {
      var x :| x in a;
      NoMore(a - {x}, b - {x});
    }
  }
}
