/** The proxy's URL index: an array of cache entries, searched and extended by every new request. Each
    operation is taken as atomic. */
module CacheIndex {
  import opened Wrappers
  import opened ProxyConnection

  datatype Entry = Entry(url: string, status: CacheStatus, writerId: int, allSize: nat, alreadyWritten: nat)

  datatype Answer = Answer(entries: seq<Entry>, index: int, hit: bool)

  // The first entry from position j on that holds the URL.
  function Find(es: seq<Entry>, url: string, j: nat): (r: Option<nat>)
    requires j <= |es|
    ensures r.Some? ==> j <= r.value < |es| && es[r.value].url == url
    ensures r.Some? ==> forall k :: j <= k < r.value ==> es[k].url != url
    ensures r.None? ==> forall k :: j <= k < |es| ==> es[k].url != url
    decreases |es| - j
  {
    if j == |es| then None else if es[j].url == url then Some(j) else Find(es, url, j + 1)
  }

  function Fresh(url: string, thread: int): Entry {
    Entry(url, Downloading, thread, 0, 0)
  }

  // What a search leaves and answers. An invalid entry is taken over by the searching thread.
  function Search(max: nat, es: seq<Entry>, url: string, thread: int): Answer {
    var j := Find(es, url, 0);
    if j.Some? then
      if es[j.value].status == Invalid
      then Answer(es[j.value := Fresh(url, thread)], j.value, false)
      else Answer(es, j.value, true)
    else if |es| >= max then Answer(es, -1, false)
    else Answer(es + [Fresh(url, thread)], |es|, false)
  }

  function Invalidate(es: seq<Entry>, id: nat): seq<Entry>
    requires id < |es|
  {
    es[id := es[id].(status := Invalid, writerId := -1)]
  }

  function Complete(es: seq<Entry>, id: nat): seq<Entry>
    requires id < |es|
  {
    es[id := es[id].(status := Valid)]
  }

  ghost predicate Distinct(es: seq<Entry>) {
    forall i, j :: 0 <= i < j < |es| ==> es[i].url != es[j].url
  }

  // ----- the array

  class Cache {
    var cache: array<Entry>
    var cacheSize: nat

    ghost predicate Valid()
      reads this, cache
    {
      cacheSize <= cache.Length && Distinct(cache[..cacheSize])
    }

    ghost function Entries(): seq<Entry>
      reads this, cache
      requires cacheSize <= cache.Length
    {
      cache[..cacheSize]
    }

    constructor (max: nat)
      ensures Valid() && fresh(cache) && cache.Length == max && Entries() == []
    {
      cache := new Entry[max](_ => Entry("", Invalid, -1, 0, 0));
      cacheSize := 0;
    }

    /** The connection that asks is given the index; on a hit it gives up its request and starts reading from
        the entry. */
    method SearchCache(url: string, connection: Connection, threadId: int) returns (found: bool)
      requires Valid()
      modifies cache, this`cacheSize, connection
      ensures Valid()
      ensures Answer(Entries(), connection.cacheIndex, found) == Search(cache.Length, old(Entries()), url, threadId)
      // a hit changes no entry; a miss starts a download by this thread, in the entry of the URL if there is
      // an invalid one and behind all others if there is none and room
      ensures var es := old(Entries()); var i := connection.cacheIndex;
              && (found || i == -1 ==> Entries() == es)
              && (!found && i != -1 ==>
                   && 0 <= i <= |es| && |Entries()| == (if i == |es| then |es| + 1 else |es|)
                   && (i < |es| ==> es[i].url == url && es[i].status == Invalid)
                   && Entries()[i] == Entry(url, Downloading, threadId, 0, 0)
                   && (forall k :: 0 <= k < |es| && k != i ==> Entries()[k] == es[k]))
      ensures found ==> connection.Valid() && connection.Content() == ""
      ensures found ==> connection.status == RespondingFromCache && connection.cacheBytesWritten == 0
      ensures !found ==>
                && unchanged(connection`buffer, connection`bufferSize)
                && unchanged(connection`status, connection`cacheBytesWritten)
    {
      ghost var es := Entries();
      SearchKeepsDistinct(cache.Length, es, url, threadId);
      MissStartsDownload(cache.Length, es, url, threadId);
      connection.cacheIndex := -1;
      var j := 0;
      while j < cacheSize
        invariant j <= cacheSize && Find(es, url, 0) == Find(es, url, j) && Entries() == es
        invariant connection.cacheIndex == -1
        invariant unchanged(cache) && unchanged(this)
        invariant unchanged(connection`buffer, connection`bufferSize)
        invariant unchanged(connection`status, connection`cacheBytesWritten)
      {
        if cache[j].url == url {
          if cache[j].status == Invalid {
            connection.cacheIndex := j;
            cache[j] := cache[j].(status := Downloading, writerId := threadId, alreadyWritten := 0, allSize := 0);
            assert Entries() == es[j := Fresh(url, threadId)];
            return false;
          }
          connection.FreeBuffer();
          connection.cacheIndex := j;
          connection.cacheBytesWritten := 0;
          connection.status := RespondingFromCache;
          return true;
        }
        j := j + 1;
      }
      if cacheSize >= cache.Length {
        connection.cacheIndex := -1;
      } else {
        cacheSize := cacheSize + 1;
        connection.cacheIndex := cacheSize - 1;
        cache[cacheSize - 1] := Entry(url, Downloading, threadId, 0, 0);
        assert Entries() == es + [Fresh(url, threadId)];
      }
      found := false;
    }

    method MakeCacheInvalid(id: nat)
      requires Valid() && id < cacheSize
      modifies cache
      ensures Valid() && Entries() == Invalidate(old(Entries()), id)
      ensures var e := old(cache[id]); cache[id] == Entry(e.url, Invalid, -1, e.allSize, e.alreadyWritten)
      ensures forall k :: 0 <= k < cache.Length && k != id ==> cache[k] == old(cache[k])
    {
      ghost var es := Entries();
      cache[id] := cache[id].(status := Invalid, writerId := -1);
      assert Entries() == Invalidate(es, id);
    }
  }

  lemma SearchKeepsDistinct(max: nat, es: seq<Entry>, url: string, thread: int)
    requires Distinct(es)
    ensures Distinct(Search(max, es, url, thread).entries)
  {
  }

  /** What an answer says: a hit exactly when a usable entry exists, and an index is given exactly when the
      URL is stored or there is room, and then holds the URL. */
  lemma AnswerMeans(max: nat, es: seq<Entry>, url: string, thread: int)
    requires Distinct(es)
    ensures var a := Search(max, es, url, thread);
            && (a.hit <==> exists j :: 0 <= j < |es| && es[j].url == url && es[j].status != Invalid)
            && (a.index == -1 <==> |es| >= max && forall j :: 0 <= j < |es| ==> es[j].url != url)
            && (a.index != -1 ==> 0 <= a.index < |a.entries| && a.entries[a.index].url == url
                                  && a.entries[a.index].status != Invalid)
            && (a.hit ==> a.entries == es)
  {
    var j := Find(es, url, 0);
    if j.Some? {
      forall k | 0 <= k < |es| && es[k].url == url ensures k == j.value {
        assert es[k].url == es[j.value].url;
      }
    }
  }

  /** What a search changes: nothing on a hit or with the cache full; otherwise exactly one entry, which is new
      or was invalid, becomes an empty download of the URL by the searching thread. */
  lemma MissStartsDownload(max: nat, es: seq<Entry>, url: string, thread: int)
    ensures var a := Search(max, es, url, thread);
            && (a.hit || a.index == -1 ==> a.entries == es)
            && (!a.hit && a.index != -1 ==>
                 && 0 <= a.index <= |es| && |a.entries| == (if a.index == |es| then |es| + 1 else |es|)
                 && (a.index < |es| ==> es[a.index].url == url && es[a.index].status == Invalid)
                 && a.entries[a.index] == Entry(url, Downloading, thread, 0, 0)
                 && (forall k :: 0 <= k < |es| && k != a.index ==> a.entries[k] == es[k]))
  {
  }

  // ----- sequences of operations

  // Invalidations and completions name an entry; the index never forgets one.
  datatype Op = Lookup(url: string, thread: int) | MakeInvalid(id: nat) | MakeValid(id: nat)

  function Do(max: nat, es: seq<Entry>, op: Op): seq<Entry> {
    match op
    case Lookup(url, thread) => Search(max, es, url, thread).entries
    case MakeInvalid(id) => if id < |es| then Invalidate(es, id) else es
    case MakeValid(id) => if id < |es| then Complete(es, id) else es
  }

  function DoAll(max: nat, es: seq<Entry>, ops: seq<Op>): seq<Entry>
    decreases ops
  {
    if ops == [] then es else DoAll(max, Do(max, es, ops[0]), ops[1..])
  }

  /** Over any sequence of operations URLs stay distinct, the size stays within the array, and an entry
      once made keeps its place and its URL. */
  lemma {:induction false} IndexIsStable(max: nat, es: seq<Entry>, ops: seq<Op>)
    requires Distinct(es) && |es| <= max
    ensures Distinct(DoAll(max, es, ops)) && |es| <= |DoAll(max, es, ops)| <= max
    ensures forall j :: 0 <= j < |es| ==> DoAll(max, es, ops)[j].url == es[j].url
    decreases ops
  {
    if ops == [] {
    } else {
      if ops[0].Lookup? { SearchKeepsDistinct(max, es, ops[0].url, ops[0].thread); }
      IndexIsStable(max, Do(max, es, ops[0]), ops[1..]);
    }
  }

  lemma {:induction false} StaysUsable(max: nat, es: seq<Entry>, ops: seq<Op>, j: nat)
    requires Distinct(es) && |es| <= max && j < |es| && es[j].status != Invalid
    requires MakeInvalid(j) !in ops
    ensures |DoAll(max, es, ops)| >= |es| && DoAll(max, es, ops)[j].status != Invalid
    decreases ops
  {
    if ops == [] {
    } else {
      var fs := Do(max, es, ops[0]);
      if ops[0].Lookup? { SearchKeepsDistinct(max, es, ops[0].url, ops[0].thread); }
      assert ops[0] != MakeInvalid(j);
      StaysUsable(max, fs, ops[1..], j);
    }
  }

  /** One download at a time: after a search was answered with entry j, be it to download into it or to
      read from it, every later search for the URL is a hit on j until j is invalidated. */
  lemma OneDownloadPerUrl(max: nat, es: seq<Entry>, url: string, thread: int, j: nat, ops: seq<Op>, other: int)
    requires Distinct(es) && |es| <= max
    requires Search(max, es, url, thread).index == j && MakeInvalid(j) !in ops
    ensures var later := Search(max, DoAll(max, Search(max, es, url, thread).entries, ops), url, other);
            later.hit && later.index == j
  {
    var first := Search(max, es, url, thread);
    AnswerMeans(max, es, url, thread);
    SearchKeepsDistinct(max, es, url, thread);
    var fs := DoAll(max, first.entries, ops);
    IndexIsStable(max, first.entries, ops);
    StaysUsable(max, first.entries, ops, j);
    AnswerMeans(max, fs, url, other);
    assert fs[j].url == url;
  }

  /** A download stays as it was started, with its writer, until its entry is made valid or invalid. */
  lemma {:induction false} DownloadStays(max: nat, es: seq<Entry>, ops: seq<Op>, j: nat)
    requires Distinct(es) && |es| <= max && j < |es| && es[j].status != Invalid
    requires MakeInvalid(j) !in ops && MakeValid(j) !in ops
    ensures |DoAll(max, es, ops)| >= |es| && DoAll(max, es, ops)[j] == es[j]
    decreases ops
  {
    if ops == [] {
    } else {
      var fs := Do(max, es, ops[0]);
      if ops[0].Lookup? {
        SearchKeepsDistinct(max, es, ops[0].url, ops[0].thread);
        MissStartsDownload(max, es, ops[0].url, ops[0].thread);
      }
      assert ops[0] != MakeInvalid(j) && ops[0] != MakeValid(j);
      DownloadStays(max, fs, ops[1..], j);
    }
  }

  /** Only completing a download makes its entry valid. */
  lemma {:induction false} ValidOnlyIfCompleted(max: nat, es: seq<Entry>, ops: seq<Op>, j: nat)
    requires Distinct(es) && |es| <= max && (j < |es| ==> es[j].status != CacheStatus.Valid)
    requires j < |DoAll(max, es, ops)| && DoAll(max, es, ops)[j].status == CacheStatus.Valid
    ensures MakeValid(j) in ops
    decreases ops
  {
    if ops == [] {
    } else {
      var fs := Do(max, es, ops[0]);
      if ops[0].Lookup? {
        SearchKeepsDistinct(max, es, ops[0].url, ops[0].thread);
        MissStartsDownload(max, es, ops[0].url, ops[0].thread);
      }
      if ops[0] != MakeValid(j) {
        ValidOnlyIfCompleted(max, fs, ops[1..], j);
      }
    }
  }

  /** Completing a download makes its entry valid and keeps the rest of it, and searches hit it. */
  lemma CompletedIsHit(max: nat, es: seq<Entry>, j: nat, thread: int)
    requires Distinct(es) && |es| <= max && j < |es|
    ensures var fs := Do(max, es, MakeValid(j));
            && |fs| == |es| && (forall k :: 0 <= k < |es| && k != j ==> fs[k] == es[k])
            && fs[j] == Entry(es[j].url, CacheStatus.Valid, es[j].writerId, es[j].allSize, es[j].alreadyWritten)
            && Search(max, fs, es[j].url, thread) == Answer(fs, j, true)
  {
    var fs := Do(max, es, MakeValid(j));
    assert fs[j].url == es[j].url;
    AnswerMeans(max, fs, es[j].url, thread);
    MissStartsDownload(max, fs, es[j].url, thread);
    var i := Find(fs, es[j].url, 0);
    assert i.Some? && fs[i.value].url == fs[j].url;
  }

  lemma {:induction false} InvalidStays(max: nat, es: seq<Entry>, ops: seq<Op>, j: nat)
    requires Distinct(es) && |es| <= max && j < |es| && es[j].status == Invalid && MakeValid(j) !in ops
    requires forall i :: 0 <= i < |ops| && ops[i].Lookup? ==> ops[i].url != es[j].url
    ensures |DoAll(max, es, ops)| >= |es| && DoAll(max, es, ops)[j].status == Invalid
    ensures DoAll(max, es, ops)[j].url == es[j].url
    decreases ops
  {
    if ops == [] {
    } else {
      var fs := Do(max, es, ops[0]);
      if ops[0].Lookup? {
        SearchKeepsDistinct(max, es, ops[0].url, ops[0].thread);
        MissStartsDownload(max, es, ops[0].url, ops[0].thread);
      }
      assert ops[0] != MakeValid(j);
      InvalidStays(max, fs, ops[1..], j);
    }
  }

  /** Once an entry is made invalid, the next search for its URL is a miss that has the searcher download into
      the same entry, whatever happens to others in between. */
  lemma InvalidIsDownloadedAgain(max: nat, es: seq<Entry>, j: nat, ops: seq<Op>, thread: int)
    requires Distinct(es) && |es| <= max && j < |es| && MakeValid(j) !in ops
    requires forall i :: 0 <= i < |ops| && ops[i].Lookup? ==> ops[i].url != es[j].url
    ensures var a := Search(max, DoAll(max, Do(max, es, MakeInvalid(j)), ops), es[j].url, thread);
            && !a.hit && a.index == j
            && j < |a.entries| && a.entries[j] == Entry(es[j].url, Downloading, thread, 0, 0)
  {
    var fs := Do(max, es, MakeInvalid(j));
    InvalidStays(max, fs, ops, j);
    IndexIsStable(max, fs, ops);
    var gs := DoAll(max, fs, ops);
    AnswerMeans(max, gs, es[j].url, thread);
    MissStartsDownload(max, gs, es[j].url, thread);
    var i := Find(gs, es[j].url, 0);
    assert i.Some? && gs[i.value].url == gs[j].url;
  }
}
