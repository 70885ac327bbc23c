/** LRUHandleTable: the hand-written hash table of the LRU cache. Buckets are chains linked through
    next_hash; a handle is a number standing for its address. It refines a map from keys to handles. */
module LRUTable {
  import opened Common

  type Id = nat

  /** What an entry is looked up by: the user key together with its hash. */
  datatype Tag = Tag(key: int, hash: nat)

  /** A pointer to a link: a bucket's head, or the next_hash field of a handle (LRUHandle**). */
  datatype Link = Head(bucket: nat) | NextOf(id: Id)

  /** hash & (length - 1), for a length that is a power of two. */
  function Bucket(hash: nat, length: nat): (b: nat)
    requires length > 0
    ensures b < length
  {
    hash % length
  }

  function At(chain: seq<Id>, j: nat): Option<Id> {
    if j < |chain| then Some(chain[j]) else None
  }

  /** Following the links from `head` visits exactly this chain. */
  ghost predicate Linked(head: Option<Id>, next: map<Id, Option<Id>>, chain: seq<Id>) {
    && head == At(chain, 0)
    && forall j | 0 <= j < |chain| :: chain[j] in next && next[chain[j]] == At(chain, j + 1)
  }

  /** Every handle of the chain belongs in bucket b of a table of this length, and is what the map names
      under its tag. */
  ghost predicate Belongs(chain: seq<Id>, tags: map<Id, Tag>, contents: map<Tag, Id>, b: nat, length: nat)
    requires length > 0
  {
    forall id | id in chain ::
        id in tags && Bucket(tags[id].hash, length) == b && tags[id] in contents && contents[tags[id]] == id
  }

  ghost predicate ChainOk(head: Option<Id>, next: map<Id, Option<Id>>, tags: map<Id, Tag>, contents: map<Tag, Id>,
                          chain: seq<Id>, b: nat, length: nat)
    requires length > 0
  {
    Linked(head, next, chain) && Distinct(chain) && Belongs(chain, tags, contents, b, length)
  }

  function Total(chains: seq<seq<Id>>): nat {
    if chains == [] then 0 else Total(chains[..|chains| - 1]) + |chains[|chains| - 1]|
  }

  lemma {:induction false} TotalUpdate(chains: seq<seq<Id>>, b: nat, chain: seq<Id>)
    requires b < |chains|
    ensures Total(chains[b := chain]) + |chains[b]| == Total(chains) + |chain|
  {
    var n := |chains| - 1;
    if b == n {
      assert chains[b := chain][..n] == chains[..n];
    } else {
      TotalUpdate(chains[..n], b, chain);
      assert chains[b := chain][..n] == chains[..n][b := chain];
    }
  }

  /** Everything the map names is in its chain. */
  ghost predicate Found(contents: map<Tag, Id>, tags: map<Id, Tag>, chains: seq<seq<Id>>) {
    forall t | t in contents ::
      |chains| > 0 && contents[t] in tags && tags[contents[t]] == t && contents[t] in chains[Bucket(t.hash, |chains|)]
  }

  // ---------------------------------------------------------------- relinking one chain

  function LinkAt(b: nat, chain: seq<Id>, j: nat): Link
    requires j <= |chain|
  {
    if j == 0 then Head(b) else NextOf(chain[j - 1])
  }

  /** Put h in the place of the j-th handle, or at the end. */
  function PutAt(chain: seq<Id>, j: nat, h: Id): seq<Id>
    requires j <= |chain|
  {
    if j < |chain| then chain[j := h] else chain + [h]
  }

  function CutAt(chain: seq<Id>, j: nat): seq<Id>
    requires j < |chain|
  {
    chain[..j] + chain[j + 1..]
  }

  /** Writing through the pointer to the j-th link of a chain. */
  function StoredHead(head: Option<Id>, j: nat, v: Option<Id>): Option<Id> {
    if j == 0 then v else head
  }

  function StoredNext(next: map<Id, Option<Id>>, chain: seq<Id>, j: nat, v: Option<Id>): map<Id, Option<Id>>
    requires j <= |chain|
  {
    if j == 0 then next else next[chain[j - 1] := v]
  }

  lemma LinkedPut(head: Option<Id>, next: map<Id, Option<Id>>, chain: seq<Id>, j: nat, h: Id)
    requires Linked(head, next, chain) && Distinct(chain) && j <= |chain| && h !in chain
    ensures Linked(StoredHead(head, j, Some(h)), StoredNext(next[h := At(chain, j + 1)], chain, j, Some(h)),
              PutAt(chain, j, h))
    ensures Distinct(PutAt(chain, j, h))
  {
  }

  lemma CutIndex(chain: seq<Id>, j: nat, i: nat)
    requires j < |chain| && i < |CutAt(chain, j)|
    ensures i + 1 < |chain| && CutAt(chain, j)[i] == if i < j then chain[i] else chain[i + 1]
  {
  }

  lemma LinkedIndex(head: Option<Id>, next: map<Id, Option<Id>>, chain: seq<Id>, k: nat)
    requires Linked(head, next, chain) && k < |chain|
    ensures chain[k] in next && next[chain[k]] == At(chain, k + 1)
  {
  }

  /** After the cut, every link but the one stored goes where it went. */
  lemma LinkCut(head: Option<Id>, next: map<Id, Option<Id>>, chain: seq<Id>, j: nat, i: nat)
    requires Linked(head, next, chain) && Distinct(chain) && j < |chain| && i < |CutAt(chain, j)|
    ensures var cut, next' := CutAt(chain, j), StoredNext(next, chain, j, At(chain, j + 1));
            cut[i] in next' && next'[cut[i]] == At(cut, i + 1)
  {
    var cut := CutAt(chain, j);
    assert |cut| == |chain| - 1;
    CutIndex(chain, j, i);
    if i + 1 < |cut| {
      CutIndex(chain, j, i + 1);
    }
    LinkedIndex(head, next, chain, if i < j then i else i + 1);
    assert j > 0 && i != j - 1 ==> cut[i] != chain[j - 1];
    hide Linked, CutAt, Distinct;
  }

  lemma LinkedCut(head: Option<Id>, next: map<Id, Option<Id>>, chain: seq<Id>, j: nat)
    requires Linked(head, next, chain) && Distinct(chain) && j < |chain|
    ensures Linked(StoredHead(head, j, At(chain, j + 1)), StoredNext(next, chain, j, At(chain, j + 1)), CutAt(chain, j))
  {
    var cut := CutAt(chain, j);
    if |cut| > 0 {
      CutIndex(chain, j, 0);
    }
    hide StoredNext, Distinct;
    forall i | 0 <= i < |cut|
      ensures var next' := StoredNext(next, chain, j, At(chain, j + 1));
                cut[i] in next' && next'[cut[i]] == At(cut, i + 1)
    {
      LinkCut(head, next, chain, j, i);
    }
  }

  lemma DistinctCut(chain: seq<Id>, j: nat)
    requires Distinct(chain) && j < |chain|
    ensures Distinct(CutAt(chain, j))
  {
    forall i, k | 0 <= i < k < |CutAt(chain, j)|
      ensures CutAt(chain, j)[i] != CutAt(chain, j)[k]
    {
      CutIndex(chain, j, i);
      CutIndex(chain, j, k);
    }
  }

  lemma LinkedFront(head: Option<Id>, next: map<Id, Option<Id>>, chain: seq<Id>, h: Id)
    requires Linked(head, next, chain) && Distinct(chain) && h !in chain
    ensures Linked(Some(h), next[h := head], [h] + chain) && Distinct([h] + chain)
  {
  }

  // ---------------------------------------------------------------- the whole table

  ghost predicate ChainsOk(heads: seq<Option<Id>>, next: map<Id, Option<Id>>, tags: map<Id, Tag>,
                           contents: map<Tag, Id>, chains: seq<seq<Id>>) {
    |heads| == |chains| > 0 && forall b | 0 <= b < |chains| ::
        ChainOk(heads[b], next, tags, contents, chains[b], b, |chains|)
  }

  /** The buckets, the links and the tags make up these chains, which stand for this map. */
  ghost predicate TableOk(heads: seq<Option<Id>>, next: map<Id, Option<Id>>, tags: map<Id, Tag>, contents: map<Tag, Id>,
                          chains: seq<seq<Id>>) {
    ChainsOk(heads, next, tags, contents, chains) && Found(contents, tags, chains)
  }

  ghost predicate Unlinked(contents: map<Tag, Id>, h: Id) {
    forall t | t in contents :: contents[t] != h
  }

  /** A chain does not notice changes to handles and tags that are not in it. */
  lemma ChainKept(head: Option<Id>, next: map<Id, Option<Id>>, tags: map<Id, Tag>, contents: map<Tag, Id>,
                  chain: seq<Id>, b: nat, length: nat, next': map<Id, Option<Id>>, tags': map<Id, Tag>,
                  contents': map<Tag, Id>)
    requires length > 0 && ChainOk(head, next, tags, contents, chain, b, length)
    requires forall id | id in chain :: id in next' && next'[id] == next[id]
    requires forall id | id in chain :: id in tags' && tags'[id] == tags[id]
    requires forall id | id in chain :: tags[id] in contents' && contents'[tags[id]] == contents[tags[id]]
    ensures ChainOk(head, next', tags', contents', chain, b, length)
  {
  }

  /** The walk for t, stopped at position j of its chain. */
  ghost predicate StopsAt(t: Tag, tags: map<Id, Tag>, chain: seq<Id>, j: nat) {
    && j <= |chain| && (forall id | id in chain :: id in tags)
    && (forall i | 0 <= i < j :: tags[chain[i]] != t) && (j < |chain| ==> tags[chain[j]] == t)
  }

  lemma StopsAtContents(heads: seq<Option<Id>>, next: map<Id, Option<Id>>, tags: map<Id, Tag>, contents: map<Tag, Id>,
                        chains: seq<seq<Id>>, t: Tag, j: nat)
    requires TableOk(heads, next, tags, contents, chains) && StopsAt(t, tags, chains[Bucket(t.hash, |chains|)], j)
    ensures t in contents <==> j < |chains[Bucket(t.hash, |chains|)]|
    ensures t in contents ==> contents[t] == chains[Bucket(t.hash, |chains|)][j]
  {
    var b := Bucket(t.hash, |chains|);
    assert ChainOk(heads[b], next, tags, contents, chains[b], b, |chains|);
  }

  lemma InPut(chain: seq<Id>, j: nat, h: Id, id: Id) returns (i: nat)
    requires j <= |chain| && id in PutAt(chain, j, h) && id != h
    ensures i < |chain| && i != j && chain[i] == id
  {
    i :| 0 <= i < |PutAt(chain, j, h)| && PutAt(chain, j, h)[i] == id;
  }

  lemma PutBelongs(tags: map<Id, Tag>, contents: map<Tag, Id>, chain: seq<Id>, length: nat, t: Tag, j: nat, h: Id)
    requires length > 0 && Belongs(chain, tags, contents, Bucket(t.hash, length), length) && Distinct(chain)
    requires StopsAt(t, tags, chain, j) && h !in chain
    ensures Belongs(PutAt(chain, j, h), tags[h := t], contents[t := h], Bucket(t.hash, length), length)
  {
    hide PutAt;
    forall id | id in PutAt(chain, j, h) && id != h
      ensures id in chain && tags[id] != t
    {
      var i := InPut(chain, j, h, id);
      assert chain[i] in chain;
      if j < |chain| {
        assert chain[j] in chain;
      }
    }
  }

  /** The chain that h enters. */
  lemma PutHere(head: Option<Id>, next: map<Id, Option<Id>>, tags: map<Id, Tag>, contents: map<Tag, Id>, chain: seq<Id>,
                length: nat, t: Tag, j: nat, h: Id)
    requires length > 0 && ChainOk(head, next, tags, contents, chain, Bucket(t.hash, length), length)
    requires StopsAt(t, tags, chain, j) && h !in chain
    ensures ChainOk(StoredHead(head, j, Some(h)), StoredNext(next[h := At(chain, j + 1)], chain, j, Some(h)),
                    tags[h := t], contents[t := h], PutAt(chain, j, h), Bucket(t.hash, length), length)
  {
    hide Linked, Belongs, Distinct;
    LinkedPut(head, next, chain, j, h);
    PutBelongs(tags, contents, chain, length, t, j, h);
  }

  lemma StaysInPut(chain: seq<Id>, j: nat, h: Id, id: Id)
    requires j <= |chain| && id in chain && (j < |chain| ==> id != chain[j])
    ensures id in PutAt(chain, j, h)
  {
    var i :| 0 <= i < |chain| && chain[i] == id;
    assert PutAt(chain, j, h)[i] == id;
  }

  lemma FoundPut(tags: map<Id, Tag>, contents: map<Tag, Id>, chains: seq<seq<Id>>, t: Tag, j: nat, h: Id)
    requires |chains| > 0 && Found(contents, tags, chains) && StopsAt(t, tags, chains[Bucket(t.hash, |chains|)], j)
    requires Unlinked(contents, h)
    ensures var b := Bucket(t.hash, |chains|);
              Found(contents[t := h], tags[h := t], chains[b := PutAt(chains[b], j, h)])
  {
    var b := Bucket(t.hash, |chains|);
    var chains' := chains[b := PutAt(chains[b], j, h)];
    assert PutAt(chains[b], j, h)[j] == h;
    hide PutAt;
    forall u | u in contents && u != t
      ensures contents[u] in chains'[Bucket(u.hash, |chains|)]
    {
      if Bucket(u.hash, |chains|) == b {
        StaysInPut(chains[b], j, h, contents[u]);
      }
    }
  }

  lemma TablePut(heads: seq<Option<Id>>, next: map<Id, Option<Id>>, tags: map<Id, Tag>, contents: map<Tag, Id>,
                 chains: seq<seq<Id>>, t: Tag, j: nat, h: Id)
    requires TableOk(heads, next, tags, contents, chains) && StopsAt(t, tags, chains[Bucket(t.hash, |chains|)], j)
    requires Unlinked(contents, h)
    ensures var b := Bucket(t.hash, |chains|);
            TableOk(heads[b := StoredHead(heads[b], j, Some(h))],
                    StoredNext(next[h := At(chains[b], j + 1)], chains[b], j, Some(h)),
                    tags[h := t], contents[t := h], chains[b := PutAt(chains[b], j, h)])
  {
    var b := Bucket(t.hash, |chains|);
    var next' := StoredNext(next[h := At(chains[b], j + 1)], chains[b], j, Some(h));
    var chains' := chains[b := PutAt(chains[b], j, h)];
    var heads' := heads[b := StoredHead(heads[b], j, Some(h))];
    hide Found, Linked;
    forall c | 0 <= c < |chains|
      ensures ChainOk(heads'[c], next', tags[h := t], contents[t := h], chains'[c], c, |chains|)
    {
      assert ChainOk(heads[c], next, tags, contents, chains[c], c, |chains|);
      assert ChainOk(heads[b], next, tags, contents, chains[b], b, |chains|);
      if c == b {
        PutHere(heads[b], next, tags, contents, chains[b], |chains|, t, j, h);
      } else {
        assert j > 0 ==> chains[b][j - 1] in chains[b];
        assert j > 0 ==> chains[b][j - 1] !in chains[c];
        ChainKept(heads[c], next, tags, contents, chains[c], c, |chains|, next', tags[h := t], contents[t := h]);
      }
    }
    FoundPut(tags, contents, chains, t, j, h);
  }

  // ---------------------------------------------------------------- taking an entry out

  lemma InCut(chain: seq<Id>, j: nat, id: Id)
    requires j < |chain| && Distinct(chain)
    ensures id in CutAt(chain, j) <==> id in chain && id != chain[j]
  {
    var cut := CutAt(chain, j);
    if id in cut {
      var i :| 0 <= i < |cut| && cut[i] == id;
      assert id == if i < j then chain[i] else chain[i + 1];
    }
    if id in chain && id != chain[j] {
      var i :| 0 <= i < |chain| && chain[i] == id;
      assert id == if i < j then cut[i] else cut[i - 1];
    }
  }

  lemma CutBelongs(tags: map<Id, Tag>, contents: map<Tag, Id>, chain: seq<Id>, length: nat, t: Tag, j: nat)
    requires length > 0 && Belongs(chain, tags, contents, Bucket(t.hash, length), length) && Distinct(chain)
    requires StopsAt(t, tags, chain, j) && j < |chain|
    ensures Belongs(CutAt(chain, j), tags, contents - {t}, Bucket(t.hash, length), length)
  {
    hide CutAt;
    assert chain[j] in chain;
    forall id | id in CutAt(chain, j)
      ensures id in chain && tags[id] != t
    {
      InCut(chain, j, id);
    }
  }

  lemma CutHere(head: Option<Id>, next: map<Id, Option<Id>>, tags: map<Id, Tag>, contents: map<Tag, Id>, chain: seq<Id>,
                length: nat, t: Tag, j: nat)
    requires length > 0 && ChainOk(head, next, tags, contents, chain, Bucket(t.hash, length), length)
    requires StopsAt(t, tags, chain, j) && j < |chain|
    ensures ChainOk(StoredHead(head, j, At(chain, j + 1)), StoredNext(next, chain, j, At(chain, j + 1)),
                    tags, contents - {t}, CutAt(chain, j), Bucket(t.hash, length), length)
  {
    hide Linked, Belongs, Distinct;
    LinkedCut(head, next, chain, j);
    DistinctCut(chain, j);
    CutBelongs(tags, contents, chain, length, t, j);
  }

  lemma FoundCut(tags: map<Id, Tag>, contents: map<Tag, Id>, chains: seq<seq<Id>>, t: Tag, j: nat)
    requires |chains| > 0 && Found(contents, tags, chains) && StopsAt(t, tags, chains[Bucket(t.hash, |chains|)], j)
    requires j < |chains[Bucket(t.hash, |chains|)]| && Distinct(chains[Bucket(t.hash, |chains|)])
    ensures var b := Bucket(t.hash, |chains|); Found(contents - {t}, tags, chains[b := CutAt(chains[b], j)])
  {
    var b := Bucket(t.hash, |chains|);
    hide CutAt;
    forall u | u in contents && u != t && Bucket(u.hash, |chains|) == b
      ensures contents[u] in CutAt(chains[b], j)
    {
      InCut(chains[b], j, contents[u]);
    }
  }

  lemma TableCut(heads: seq<Option<Id>>, next: map<Id, Option<Id>>, tags: map<Id, Tag>, contents: map<Tag, Id>,
                 chains: seq<seq<Id>>, t: Tag, j: nat)
    requires TableOk(heads, next, tags, contents, chains) && StopsAt(t, tags, chains[Bucket(t.hash, |chains|)], j)
    requires j < |chains[Bucket(t.hash, |chains|)]|
    ensures var b := Bucket(t.hash, |chains|);
            TableOk(heads[b := StoredHead(heads[b], j, At(chains[b], j + 1))],
                StoredNext(next, chains[b], j, At(chains[b], j + 1)),
                    tags, contents - {t}, chains[b := CutAt(chains[b], j)])
  {
    var b := Bucket(t.hash, |chains|);
    var next' := StoredNext(next, chains[b], j, At(chains[b], j + 1));
    var chains' := chains[b := CutAt(chains[b], j)];
    var heads' := heads[b := StoredHead(heads[b], j, At(chains[b], j + 1))];
    assert ChainOk(heads[b], next, tags, contents, chains[b], b, |chains|);
    FoundCut(tags, contents, chains, t, j);
    hide Found, Linked, CutAt;
    forall c | 0 <= c < |chains|
      ensures ChainOk(heads'[c], next', tags, contents - {t}, chains'[c], c, |chains|)
    {
      assert ChainOk(heads[c], next, tags, contents, chains[c], c, |chains|);
      if c == b {
        CutHere(heads[b], next, tags, contents, chains[b], |chains|, t, j);
      } else {
        assert j > 0 ==> chains[b][j - 1] in chains[b];
        assert j > 0 ==> chains[b][j - 1] !in chains[c];
        ChainKept(heads[c], next, tags, contents, chains[c], c, |chains|, next', tags, contents - {t});
      }
    }
  }

  // ---------------------------------------------------------------- rehashing

  /** The new chains hold exactly the handles moved so far, each in its bucket. */
  ghost predicate Moved(chains: seq<seq<Id>>, tags: map<Id, Tag>, moved: set<Id>) {
    && |chains| > 0
    && (forall c | 0 <= c < |chains| :: forall id | id in chains[c] :: id in moved)
    && (forall id | id in moved :: id in tags && id in chains[Bucket(tags[id].hash, |chains|)])
  }

  lemma MoveOne(heads: seq<Option<Id>>, next: map<Id, Option<Id>>, tags: map<Id, Tag>, contents: map<Tag, Id>,
                chains: seq<seq<Id>>, moved: set<Id>, h: Id)
    requires ChainsOk(heads, next, tags, contents, chains) && Moved(chains, tags, moved)
    requires h !in moved && h in tags && tags[h] in contents && contents[tags[h]] == h
    ensures var b := Bucket(tags[h].hash, |chains|);
            && ChainsOk(heads[b := Some(h)], next[h := heads[b]], tags, contents, chains[b := [h] + chains[b]])
            && Moved(chains[b := [h] + chains[b]], tags, moved + {h})
  {
    var b := Bucket(tags[h].hash, |chains|);
    var chains' := chains[b := [h] + chains[b]];
    var heads' := heads[b := Some(h)];
    var next' := next[h := heads[b]];
    forall c | 0 <= c < |chains|
      ensures ChainOk(heads'[c], next', tags, contents, chains'[c], c, |chains|)
    {
      assert ChainOk(heads[c], next, tags, contents, chains[c], c, |chains|);
      if c == b {
        LinkedFront(heads[b], next, chains[b], h);
      } else {
        ChainKept(heads[c], next, tags, contents, chains[c], c, |chains|, next', tags, contents);
      }
    }
  }

  /** The buckets from i on are still as they were, and nothing in them has moved. */
  ghost predicate Waiting(heads: seq<Option<Id>>, next: map<Id, Option<Id>>, tags: map<Id, Tag>, contents: map<Tag, Id>,
                          chains: seq<seq<Id>>, i: nat, moved: set<Id>) {
    && |heads| == |chains| > 0
    && forall b | i <= b < |chains| ::
         ChainOk(heads[b], next, tags, contents, chains[b], b, |chains|) && forall id | id in chains[b] :: id !in moved
  }

  /** Moving a handle of bucket i does not disturb the later ones. */
  lemma WaitingKept(heads: seq<Option<Id>>, next: map<Id, Option<Id>>, tags: map<Id, Tag>, contents: map<Tag, Id>,
                    chains: seq<seq<Id>>, i: nat, moved: set<Id>, h: Id, v: Option<Id>)
    requires Waiting(heads, next, tags, contents, chains, i + 1, moved) && h in tags
    requires Bucket(tags[h].hash, |chains|) == i
    ensures Waiting(heads, next[h := v], tags, contents, chains, i + 1, moved + {h})
  {
    forall b | i + 1 <= b < |chains|
      ensures ChainOk(heads[b], next[h := v], tags, contents, chains[b], b, |chains|) && h !in chains[b]
    {
      assert ChainOk(heads[b], next, tags, contents, chains[b], b, |chains|);
      ChainKept(heads[b], next, tags, contents, chains[b], b, |chains|, next[h := v], tags, contents);
    }
  }

  /** What is left of the chain being moved. */
  ghost predicate RestOk(h: Option<Id>, next: map<Id, Option<Id>>, tags: map<Id, Tag>, contents: map<Tag, Id>,
                         rest: seq<Id>, i: nat, length: nat, moved: set<Id>)
    requires length > 0
  {
    ChainOk(h, next, tags, contents, rest, i, length) && forall id | id in rest :: id !in moved
  }

  lemma RestStep(next: map<Id, Option<Id>>, tags: map<Id, Tag>, contents: map<Tag, Id>, rest: seq<Id>, i: nat,
                 length: nat, moved: set<Id>, v: Option<Id>)
    requires length > 0 && rest != [] && RestOk(At(rest, 0), next, tags, contents, rest, i, length, moved)
    ensures rest[0] in next
    ensures RestOk(next[rest[0]], next[rest[0] := v], tags, contents, rest[1..], i, length, moved + {rest[0]})
  {
    assert rest[0] in next && next[rest[0]] == At(rest, 1);
    var tail := rest[1..];
    assert forall k | 0 <= k < |tail| :: tail[k] == rest[k + 1];
    assert rest[0] !in tail;
    assert forall id | id in tail :: id in rest;
  }

  /** All handles of the first i old buckets have moved, but for the rest of the last of them. */
  ghost predicate Collected(was: seq<seq<Id>>, i: nat, rest: seq<Id>, moved: set<Id>) {
    i <= |was| && forall b | 0 <= b < i :: forall id | id in was[b] :: id in moved || (id in rest && b == i - 1)
  }

  lemma CollectOne(was: seq<seq<Id>>, i: nat, rest: seq<Id>, moved: set<Id>)
    requires Collected(was, i, rest, moved) && rest != []
    ensures Collected(was, i, rest[1..], moved + {rest[0]})
  {
    assert forall id | id in rest :: id == rest[0] || id in rest[1..];
  }

  lemma RestFirst(h: Option<Id>, next: map<Id, Option<Id>>, tags: map<Id, Tag>, contents: map<Tag, Id>, rest: seq<Id>,
                  i: nat, length: nat, moved: set<Id>)
    requires length > 0 && RestOk(h, next, tags, contents, rest, i, length, moved) && h.Some?
    ensures rest != [] && h == At(rest, 0) && h.value in next && h.value in tags && h.value !in moved
    ensures Bucket(tags[h.value].hash, length) == i && tags[h.value] in contents && contents[tags[h.value]] == h.value
  {
    assert rest[0] in rest;
  }

  lemma RestDone(h: Option<Id>, next: map<Id, Option<Id>>, tags: map<Id, Tag>, contents: map<Tag, Id>, rest: seq<Id>,
                 i: nat, length: nat, moved: set<Id>)
    requires length > 0 && RestOk(h, next, tags, contents, rest, i, length, moved) && h.None?
    ensures rest == []
  {
  }

  lemma BucketStarts(heads: seq<Option<Id>>, next: map<Id, Option<Id>>, tags: map<Id, Tag>, contents: map<Tag, Id>,
                     was: seq<seq<Id>>, i: nat, moved: set<Id>)
    requires Waiting(heads, next, tags, contents, was, i, moved) && i < |was| && Collected(was, i, [], moved)
    ensures RestOk(heads[i], next, tags, contents, was[i], i, |was|, moved)
    ensures Waiting(heads, next, tags, contents, was, i + 1, moved) && Collected(was, i + 1, was[i], moved)
  {
  }

  lemma TotalPrefix(was: seq<seq<Id>>, i: nat)
    requires i < |was|
    ensures Total(was[..i + 1]) == Total(was[..i]) + |was[i]|
  {
    assert was[..i + 1][..i] == was[..i];
  }

  lemma ResizeStarts(heads: seq<Option<Id>>, next: map<Id, Option<Id>>, tags: map<Id, Tag>, contents: map<Tag, Id>,
                     was: seq<seq<Id>>, newHeads: seq<Option<Id>>, newChains: seq<seq<Id>>)
    requires TableOk(heads, next, tags, contents, was) && |newHeads| == |newChains| > 0
    requires forall b | 0 <= b < |newHeads| :: newHeads[b] == None && newChains[b] == []
    ensures ChainsOk(newHeads, next, tags, contents, newChains) && Moved(newChains, tags, {})
    ensures Waiting(heads, next, tags, contents, was, 0, {}) && Collected(was, 0, [], {})
    ensures Total(newChains) == Total(was[..0]) == 0 && Found(contents, tags, was)
  {
    TotalEmpty(newChains);
    hide Found, Total;
    assert Total([]) == 0;
  }

  lemma ResizeDone(heads: seq<Option<Id>>, next: map<Id, Option<Id>>, tags: map<Id, Tag>, contents: map<Tag, Id>,
                   was: seq<seq<Id>>, newHeads: seq<Option<Id>>, newChains: seq<seq<Id>>, moved: set<Id>)
    requires Found(contents, tags, was) && Collected(was, |was|, [], moved)
    requires ChainsOk(newHeads, next, tags, contents, newChains) && Moved(newChains, tags, moved)
    ensures TableOk(newHeads, next, tags, contents, newChains)
  {
    hide ChainsOk;
    forall t | t in contents
      ensures contents[t] in moved
    {
      assert contents[t] in was[Bucket(t.hash, |was|)];
    }
  }

  predicate PowerOfTwo(n: nat) {
    n == 1 || (n > 1 && n % 2 == 0 && PowerOfTwo(n / 2))
  }

  lemma Doubled(n: nat)
    ensures PowerOfTwo(n) ==> PowerOfTwo(n * 2)
  {
  }

  lemma Sixteen()
    ensures PowerOfTwo(16)
  {
    Doubled(1);
    Doubled(2);
    Doubled(4);
    Doubled(8);
    assert PowerOfTwo(1);
  }

  lemma {:induction false} TotalEmpty(chains: seq<seq<Id>>)
    requires forall b | 0 <= b < |chains| :: chains[b] == []
    ensures Total(chains) == 0
  {
    if chains != [] {
      TotalEmpty(chains[..|chains| - 1]);
    }
  }

  // ---------------------------------------------------------------- the table

  class LRUHandleTable {
    var list: array<Option<Id>>
    var elems: nat
    var next: map<Id, Option<Id>>
    var tags: map<Id, Tag>
    ghost var chains: seq<seq<Id>>
    ghost var contents: map<Tag, Id>

    ghost predicate Valid()
      reads this, list
    {
      && list.Length == |chains|
      && TableOk(list[..], next, tags, contents, chains)
      && elems == Total(chains)
      && PowerOfTwo(list.Length) && list.Length >= 16 && elems <= list.Length
    }

    constructor ()
      ensures Valid() && contents == map[] && fresh(list)
    {
      elems, next, tags, contents := 0, map[], map[], map[];
      list := new Option<Id>[16](_ => None);
      chains := seq(16, _ => []);
      new;
      TotalEmpty(chains);
      assert PowerOfTwo(16) by { assert PowerOfTwo(8) by { assert PowerOfTwo(4); } }
    }

    predicate Readable(link: Link)
      reads this
    {
      (link.Head? ==> link.bucket < list.Length) && (link.NextOf? ==> link.id in next)
    }

    function Load(link: Link): Option<Id>
      reads this, list
      requires Readable(link)
    {
      match link
      case Head(b) => list[b]
      case NextOf(id) => next[id]
    }

    method Store(link: Link, v: Option<Id>)
      requires Readable(link)
      modifies this`next, list
      ensures list[..] == if link.Head? then old(list[..])[link.bucket := v] else old(list[..])
      ensures next == if link.NextOf? then old(next)[link.id := v] else old(next)
    {
      match link
      case Head(b) => list[b] := v;
      case NextOf(id) => next := next[id := v];
    }

    /** Walk the chain of the tag's bucket up to the entry, or to the trailing link. */
    method FindPointer(t: Tag) returns (link: Link, ghost j: nat)
      requires Valid()
      ensures var b := Bucket(t.hash, |chains|);
              && StopsAt(t, tags, chains[b], j) && j <= |chains[b]| && link == LinkAt(b, chains[b], j)
              && Readable(link) && Load(link) == At(chains[b], j)
    {
      var b := Bucket(t.hash, list.Length);
      ghost var chain := chains[b];
      assert ChainOk(list[..][b], next, tags, contents, chain, b, |chains|);
      hide Found, Total, ChainsOk;
      link, j := Head(b), 0;
      while Load(link).Some? && tags[Load(link).value] != t
        invariant j <= |chain| && link == LinkAt(b, chain, j)
        invariant Readable(link) && Load(link) == At(chain, j)
        invariant forall i | 0 <= i < j :: tags[chain[i]] != t
        decreases |chain| - j
      {
        link := NextOf(Load(link).value);
        j := j + 1;
      }
    }

    method Lookup(t: Tag) returns (r: Option<Id>)
      requires Valid()
      ensures r == if t in contents then Some(contents[t]) else None
    {
      var link, j := FindPointer(t);
      StopsAtContents(list[..], next, tags, contents, chains, t, j);
      r := Load(link);
    }

    method Remove(t: Tag) returns (r: Option<Id>)
      requires Valid()
      modifies this`next, this`elems, this`chains, this`contents, list
      ensures Valid() && contents == old(contents) - {t}
      ensures r == if t in old(contents) then Some(old(contents)[t]) else None
    {
      hide TableOk, Total, StopsAt, CutAt, PowerOfTwo;
      var link, j := FindPointer(t);
      StopsAtContents(list[..], next, tags, contents, chains, t, j);
      r := Load(link);
      if r.Some? {
        ghost var b := Bucket(t.hash, |chains|);
        TableCut(list[..], next, tags, contents, chains, t, j);
        TotalUpdate(chains, b, CutAt(chains[b], j));
        CutLength(chains[b], j);
        NextInChain(list[..], next, tags, contents, chains, b, j);
        Store(link, next[r.value]);
        assert list[..] == old(list[..])[b := StoredHead(old(list[..])[b], j, At(chains[b], j + 1))];
        elems := elems - 1;
        chains := chains[b := CutAt(chains[b], j)];
        contents := contents - {t};
      }
    }

    /** Enter h under t; returns the handle it replaces. */
    method Insert(h: Id, t: Tag) returns (replaced: Option<Id>)
      requires Valid() && Unlinked(contents, h)
      modifies this, list
      ensures Valid() && contents == old(contents)[t := h]
      ensures replaced == if t in old(contents) then Some(old(contents)[t]) else None
      ensures list == old(list) || fresh(list)
    {
      hide TableOk, Total, StopsAt, PutAt, PowerOfTwo;
      var link, j := FindPointer(t);
      StopsAtContents(list[..], next, tags, contents, chains, t, j);
      replaced := Load(link);
      ghost var b := Bucket(t.hash, |chains|);
      TablePut(list[..], next, tags, contents, chains, t, j, h);
      TotalUpdate(chains, b, PutAt(chains[b], j, h));
      PutLength(chains[b], j, h);
      if replaced.Some? {
        NextInChain(list[..], next, tags, contents, chains, b, j);
      }
      next := next[h := if replaced.None? then None else next[replaced.value]];
      tags := tags[h := t];
      Store(link, Some(h));
      assert list[..] == old(list[..])[b := StoredHead(old(list[..])[b], j, Some(h))];
      chains := chains[b := PutAt(chains[b], j, h)];
      contents := contents[t := h];
      if replaced.None? {
        elems := elems + 1;
        if elems > list.Length {
          Resize();
        }
      }
    }

    /** The next length: the least of 16, 32, 64, ... that is at least one and a half times elems. */
    method NewLength() returns (length: nat)
      ensures PowerOfTwo(length) && length >= 16 && 2 * length >= 3 * elems
      ensures length == 16 || length < 3 * elems
    {
      hide PowerOfTwo;
      length := 16;
      Sixteen();
      while 2 * length < 3 * elems
        invariant PowerOfTwo(length) && length >= 16 && (length == 16 || length < 3 * elems)
        decreases 3 * elems - length
      {
        Doubled(length);
        length := length * 2;
      }
    }

    /** Rehash everything into a new array of buckets. */
    method Resize()
      requires list.Length == |chains| && TableOk(list[..], next, tags, contents, chains) && elems == Total(chains)
      modifies this`list, this`next, this`chains
      ensures Valid() && fresh(list)
    {
      hide TableOk, Total, PowerOfTwo, ChainsOk, Moved, Waiting, RestOk, Collected, Found;
      ghost var heads, was := list[..], chains;
      var newLength := NewLength();
      var newList := new Option<Id>[newLength](_ => None);
      chains := seq(newLength, _ => []);
      ghost var moved: set<Id> := {};
      var count, i := 0, 0;
      ResizeStarts(heads, next, tags, contents, was, newList[..], chains);
      while i < list.Length
        invariant list == old(list) && 0 <= i <= list.Length == |was| && list[..] == heads && |chains| == newLength
        invariant ChainsOk(newList[..], next, tags, contents, chains) && Moved(chains, tags, moved)
        invariant Waiting(heads, next, tags, contents, was, i, moved) && Collected(was, i, [], moved)
        invariant count == Total(chains) == Total(was[..i])
      {
        var h := list[i];
        ghost var rest := was[i];
        BucketStarts(heads, next, tags, contents, was, i, moved);
        while h.Some?
          invariant list == old(list) && list[..] == heads && |chains| == newLength
          invariant ChainsOk(newList[..], next, tags, contents, chains) && Moved(chains, tags, moved)
          invariant Waiting(heads, next, tags, contents, was, i + 1, moved) && Collected(was, i + 1, rest, moved)
          invariant RestOk(h, next, tags, contents, rest, i, |was|, moved)
          invariant count == Total(chains) == Total(was[..i]) + |was[i]| - |rest|
          decreases |rest|
        {
          RestFirst(h, next, tags, contents, rest, i, |was|, moved);
          var after := next[h.value];
          var b := Bucket(tags[h.value].hash, newLength);
          MoveOne(newList[..], next, tags, contents, chains, moved, h.value);
          TotalUpdate(chains, b, [h.value] + chains[b]);
          WaitingKept(heads, next, tags, contents, was, i, moved, h.value, newList[b]);
          RestStep(next, tags, contents, rest, i, |was|, moved, newList[b]);
          CollectOne(was, i + 1, rest, moved);
          next := next[h.value := newList[b]];
          newList[b] := h;
          chains := chains[b := [h.value] + chains[b]];
          moved := moved + {h.value};
          rest := rest[1..];
          h := after;
          count := count + 1;
        }
        RestDone(h, next, tags, contents, rest, i, |was|, moved);
        TotalPrefix(was, i);
        i := i + 1;
      }
      assert was[..i] == was;
      assert elems == count;
      ResizeDone(heads, next, tags, contents, was, newList[..], chains, moved);
      list := newList;
    }
  }

  lemma PutLength(chain: seq<Id>, j: nat, h: Id)
    requires j <= |chain|
    ensures |PutAt(chain, j, h)| == if j < |chain| then |chain| else |chain| + 1
  {
  }

  lemma CutLength(chain: seq<Id>, j: nat)
    requires j < |chain|
    ensures |CutAt(chain, j)| == |chain| - 1
  {
  }

  /** The j-th handle of a chain points to the next one. */
  lemma NextInChain(heads: seq<Option<Id>>, next: map<Id, Option<Id>>, tags: map<Id, Tag>, contents: map<Tag, Id>,
                    chains: seq<seq<Id>>, b: nat, j: nat)
    requires TableOk(heads, next, tags, contents, chains) && b < |chains| && j < |chains[b]|
    ensures chains[b][j] in next && next[chains[b][j]] == At(chains[b], j + 1)
  {
    assert ChainOk(heads[b], next, tags, contents, chains[b], b, |chains|);
  }
}
