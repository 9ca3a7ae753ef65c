/**
 * The skip list under one writer and any number of lock-free readers (db/skiplist.h).
 *
 * A key is represented by its position in the comparator's order, and a node by its key: the list holds no key
 * twice. Every load and every store of a link or of the list's height is a step of its own, so that a reader may
 * find the list in any state an insertion passes through.
 */
module SkipLists {
  import opened Wrappers

  const MAX_HEIGHT: nat := 12

  /** Where a search stands: the head or a node. */
  datatype Place = Head | Node(key: real)

  /** The links of the head and of every node allocated so far, lowest level first; `None` is the null pointer. */
  datatype List = List(maxHeight: nat, heads: seq<Option<real>>, nodes: map<real, seq<Option<real>>>)

  predicate HasLink(s: List, p: Place, l: nat) {
    match p
    case Head => l < |s.heads|
    case Node(k) => k in s.nodes && l < |s.nodes[k]|
  }

  function Next(s: List, p: Place, l: nat): Option<real>
    requires HasLink(s, p, l)
  {
    match p
    case Head => s.heads[l]
    case Node(k) => s.nodes[k][l]
  }

  function SetNext(s: List, p: Place, l: nat, to: Option<real>): List
    requires HasLink(s, p, l)
  {
    match p
    case Head => s.(heads := s.heads[l := to])
    case Node(k) => s.(nodes := s.nodes[k := s.nodes[k][l := to]])
  }

  predicate After(p: Place, k: real) { p.Head? || p.key < k }

  /** An insertion under way: its node is in the list at the levels below `linked`. */
  datatype Writer =
    | Idle
    | Inserting(key: real, height: nat, prev: seq<Place>, made: bool, ready: bool, linked: nat)

  /** What a search looks for: FindGreaterOrEqual, FindLessThan and FindLast. */
  datatype Search = AtOrAfter(target: real) | LastBefore(target: real) | Last

  /** A search goes on along a level to the next node, or down a level. */
  predicate GoesOn(search: Search, next: Option<real>) {
    next.Some? && (search.Last? || next.value < search.target)
  }

  /** A scan backwards: where it began, the keys in the list at that time, and those it has been at. */
  datatype Back = Back(from: Option<real>, began: set<real>, seen: seq<real>)

  /**
   * A reader: searching, done with a search, or scanning from a key or from the first one on. `began` are the keys in the
   * list when it began, `present` those at its last load. Each step of a scan backwards is a search of its own.
   */
  datatype Reader =
    | Looking(search: Search, at: Place, level: nat, began: set<real>, back: Option<Back>)
    | Done(search: Search, at: Place, next: Option<real>, began: set<real>, present: set<real>, back: Option<Back>)
    | Scanning(from: Option<real>, seen: seq<real>, ended: bool, began: set<real>)
  {
    /** The key the reader's iterator is at. */
    function Position(): Option<real> {
      match this
      case Looking(_, _, _, _, _) => None
      case Done(search, at, next, _, _, _) =>
        if search.AtOrAfter? then next else if at.Node? then Some(at.key) else None
      case Scanning(_, seen, ended, _) => if ended || seen == [] then None else Some(seen[|seen| - 1])
    }
  }

  datatype Machine = Machine(list: List, writer: Writer, readers: map<nat, Reader>) {
    predicate IsLinked(k: real, l: nat) {
      && k in list.nodes && l < |list.nodes[k]|
      && (writer.Inserting? && writer.key == k ==> l < writer.linked)
    }

    /** The keys in the list at a level. */
    ghost function Level(l: nat): set<real> {
      set k | k in list.nodes && IsLinked(k, l)
    }

    ghost function Keys(): set<real> { Level(0) }
  }

  /** `n` is the first key of the level after `p`. */
  ghost predicate IsNext(level: set<real>, p: Place, n: Option<real>) {
    match n
    case None => forall k :: k in level ==> !After(p, k)
    case Some(n) => n in level && After(p, n) && forall k :: k in level && After(p, k) ==> n <= k
  }

  ghost predicate InLevel(level: set<real>, p: Place) { p.Head? || p.key in level }

  /** `p` is the last place of the level before `key`. */
  ghost predicate IsPrev(level: set<real>, p: Place, key: real) {
    InLevel(level, p) && After(p, key) && forall k :: k in level && After(p, k) ==> k >= key
  }

  /** Every level is a sorted list: each link leads to the next larger key of its level. */
  ghost predicate LinksOk(m: Machine) {
    forall l: nat, p {:trigger Next(m.list, p, l)} {:trigger InLevel(m.Level(l), p)} :: l < MAX_HEIGHT && InLevel(m.Level(l), p) ==>
      HasLink(m.list, p, l) && IsNext(m.Level(l), p, Next(m.list, p, l))
  }

  ghost predicate HeightsOk(m: Machine) {
    && |m.list.heads| == MAX_HEIGHT && 1 <= m.list.maxHeight <= MAX_HEIGHT
    && forall k :: k in m.list.nodes ==> 1 <= |m.list.nodes[k]| <= m.list.maxHeight
  }

  predicate OwnLinkSet(s: List, key: real, p: Place, l: nat) {
    HasLink(s, Node(key), l) && HasLink(s, p, l) && Next(s, Node(key), l) == Next(s, p, l)
  }

  ghost predicate WriterOk(m: Machine) {
    m.writer.Inserting? ==>
      var w := m.writer;
      && w.linked < w.height <= MAX_HEIGHT && |w.prev| == w.height
      && (if w.made then w.key in m.list.nodes && |m.list.nodes[w.key]| == w.height
          else w.key !in m.list.nodes && w.linked == 0)
      && (w.ready ==> w.made)
      && (forall l: nat :: w.linked <= l < w.height ==> IsPrev(m.Level(l), w.prev[l], w.key))
      && (w.ready ==> OwnLinkSet(m.list, w.key, w.prev[w.linked], w.linked))
  }

  ghost predicate ListOk(m: Machine) { HeightsOk(m) && LinksOk(m) && WriterOk(m) }

  ghost predicate Increasing(s: seq<real>) { forall i, j :: 0 <= i < j < |s| ==> s[i] < s[j] }

  /** The outcome of a search is right for the keys present. */
  ghost predicate IsOutcome(search: Search, at: Place, next: Option<real>, present: set<real>) {
    match search
    case AtOrAfter(t) =>
      (match next
       case None => forall k :: k in present ==> k < t
       case Some(n) => n in present && n >= t && forall k :: k in present && k >= t ==> n <= k)
    case LastBefore(t) =>
      (match at
       case Head => forall k :: k in present ==> k >= t
       case Node(n) => n in present && n < t && forall k :: k in present && k < t ==> k <= n)
    case Last =>
      (match at
       case Head => present == {}
       case Node(n) => n in present && forall k :: k in present ==> k <= n)
  }

  ghost predicate Decreasing(s: seq<real>) { forall i, j :: 0 <= i < j < |s| ==> s[i] > s[j] }

  predicate FromOn(from: Option<real>, k: real) { from.None? || from.value <= k }

  predicate UpTo(from: Option<real>, k: real) { from.None? || k <= from.value }

  /** A scan backwards has seen every key up to its start that was there when it began, down to where it is. */
  ghost predicate BackOk(b: Back, keys: set<real>) {
    && b.seen != [] && b.began <= keys && Decreasing(b.seen) && (forall k :: k in b.seen ==> k in keys && UpTo(b.from, k))
    && (forall k :: k in b.began && UpTo(b.from, k) && k >= b.seen[|b.seen| - 1] ==> k in b.seen)
  }

  /** The search a scan backwards does next. */
  ghost predicate SearchesBack(search: Search, began: set<real>, back: Option<Back>, keys: set<real>) {
    back.Some? ==>
      BackOk(back.value, keys) && back.value.began <= began && search == LastBefore(back.value.seen[|back.value.seen| - 1])
  }

  /** The scan has seen, in order, every key from its start that was there when it began, up to where it is. */
  ghost predicate ScanOk(r: Reader, keys: set<real>)
    requires r.Scanning?
  {
    && r.began <= keys && Increasing(r.seen) && (!r.ended ==> r.seen != [])
    && (forall k :: k in r.seen ==> k in keys && FromOn(r.from, k))
    && (forall k :: k in r.began && FromOn(r.from, k) && (r.ended || k <= r.seen[|r.seen| - 1]) ==> k in r.seen)
  }

  ghost predicate ReaderOk(m: Machine, r: Reader) {
    match r
    case Looking(search, at, level, began, back) =>
      && SearchesBack(search, began, back, m.Keys()) && level < MAX_HEIGHT && InLevel(m.Level(level), at) && began <= m.Keys()
      && (at.Node? && !search.Last? ==> at.key < search.target)
    case Done(search, at, next, began, present, back) =>
      && began <= present <= m.Keys() && IsOutcome(search, at, next, present) && SearchesBack(search, began, back, m.Keys())
    case Scanning(_, _, _, _) => ScanOk(r, m.Keys())
  }

  ghost predicate Ok(m: Machine) {
    ListOk(m) && forall id {:trigger m.readers[id]} :: id in m.readers ==> ReaderOk(m, m.readers[id])
  }

  datatype Step =
    // the writer
    | Begin(key: real, height: nat, prev: seq<Place>)
    | StoreHeight
    | Allocate(tower: seq<Option<real>>)
    | SetOwnLink
    | Publish
    // the readers
    | StartSearch(id: nat, search: Search)
    | ReadNext(id: nat)
    | SeekToFirst(id: nat)
    | StartScan(id: nat)
    | ScanNext(id: nat)
    | StepBack(id: nat)           // Prev

  /** The places an insertion links its node after: as found by the search at the levels in use, the head above. */
  ghost predicate Predecessors(m: Machine, key: real, height: nat, prev: seq<Place>) {
    |prev| == height && forall l: nat :: 0 <= l < height ==> IsPrev(m.Level(l), prev[l], key)
  }

  ghost predicate Allowed(m: Machine, step: Step) {
    match step
    case Begin(key, height, prev) =>
      m.writer.Idle? && key !in m.Keys() && 1 <= height <= MAX_HEIGHT && Predecessors(m, key, height, prev)
    case StoreHeight => m.writer.Inserting? && !m.writer.made && m.writer.height > m.list.maxHeight
    case Allocate(tower) =>
      && m.writer.Inserting? && !m.writer.made && m.writer.height <= m.list.maxHeight
      && |tower| == m.writer.height
    case SetOwnLink => m.writer.Inserting? && m.writer.made && !m.writer.ready && CanStore(m)
    case Publish => m.writer.Inserting? && m.writer.ready && CanStore(m)
    case StartSearch(id, _) => 1 <= m.list.maxHeight
    case ReadNext(id) =>
      id in m.readers && m.readers[id].Looking? && HasLink(m.list, m.readers[id].at, m.readers[id].level)
    case SeekToFirst(_) => HasLink(m.list, Head, 0)
    case StartScan(id) =>
      id in m.readers && m.readers[id].Done? && (m.readers[id].search.AtOrAfter? || m.readers[id].at.Node?)
    case ScanNext(id) =>
      && id in m.readers && m.readers[id].Scanning? && !m.readers[id].ended && m.readers[id].seen != []
      && HasLink(m.list, Node(m.readers[id].seen[|m.readers[id].seen| - 1]), 0)
    case StepBack(id) => id in m.readers && m.readers[id].Position().Some? && 1 <= m.list.maxHeight
  }

  /** The places the writer stores to exist. */
  predicate CanStore(m: Machine)
    requires m.writer.Inserting?
  {
    && m.writer.linked < |m.writer.prev| && HasLink(m.list, m.writer.prev[m.writer.linked], m.writer.linked)
    && HasLink(m.list, Node(m.writer.key), m.writer.linked)
  }

  function AfterRead(r: Reader, next: Option<real>, present: set<real>): Reader
    requires r.Looking?
  {
    if GoesOn(r.search, next) then Looking(r.search, Node(next.value), r.level, r.began, r.back)
    else if r.level > 0 then Looking(r.search, r.at, r.level - 1, r.began, r.back)
    else Done(r.search, r.at, next, r.began, present, r.back)
  }

  /** A scan from the outcome of a search on: from the target sought, or from the key found before it. */
  function ScanFrom(r: Reader): Reader
    requires r.Done? && (r.search.AtOrAfter? || r.at.Node?)
  {
    if !r.search.AtOrAfter? then Scanning(Some(r.at.key), [r.at.key], false, r.began)
    else
      match r.next
      case None => Scanning(Some(r.search.target), [], true, r.began)
      case Some(n) => Scanning(Some(r.search.target), [n], false, r.began)
  }

  function FromFirst(first: Option<real>, keys: set<real>): Reader {
    match first
    case None => Scanning(None, [], true, keys)
    case Some(n) => Scanning(None, [n], false, keys)
  }

  /** A step backwards from the position: it goes on with a scan, or begins one there, or at the end of the list. */
  function Backwards(r: Reader, p: real, keys: set<real>): Back {
    if r.Done? && r.back.Some? then r.back.value.(seen := r.back.value.seen + [p])
    else if r.Done? && r.search.Last? then Back(None, r.began, [p])
    else Back(Some(p), keys, [p])
  }

  function ScanOn(r: Reader, next: Option<real>): Reader
    requires r.Scanning?
  {
    match next
    case None => r.(ended := true)
    case Some(n) => r.(seen := r.seen + [n])
  }

  ghost function Apply(m: Machine, step: Step): Machine
    requires Allowed(m, step)
  {
    match step
    case Begin(key, height, prev) => m.(writer := Inserting(key, height, prev, false, false, 0))
    case StoreHeight => m.(list := m.list.(maxHeight := m.writer.height))
    case Allocate(tower) =>
      m.(list := m.list.(nodes := m.list.nodes[m.writer.key := tower]), writer := m.writer.(made := true))
    case SetOwnLink =>
      var next := Next(m.list, m.writer.prev[m.writer.linked], m.writer.linked);
      m.(list := SetNext(m.list, Node(m.writer.key), m.writer.linked, next), writer := m.writer.(ready := true))
    case Publish =>
      var published := SetNext(m.list, m.writer.prev[m.writer.linked], m.writer.linked, Some(m.writer.key));
      m.(list := published, writer :=
        if m.writer.linked + 1 == m.writer.height then Idle
        else m.writer.(ready := false, linked := m.writer.linked + 1))
    case StartSearch(id, search) =>
      m.(readers := m.readers[id := Looking(search, Head, m.list.maxHeight - 1, m.Keys(), None)])
    case ReadNext(id) =>
      var r := m.readers[id];
      m.(readers := m.readers[id := AfterRead(r, Next(m.list, r.at, r.level), m.Keys())])
    case SeekToFirst(id) => m.(readers := m.readers[id := FromFirst(Next(m.list, Head, 0), m.Keys())])
    case StartScan(id) => m.(readers := m.readers[id := ScanFrom(m.readers[id])])
    case ScanNext(id) =>
      var r := m.readers[id];
      m.(readers := m.readers[id := ScanOn(r, Next(m.list, Node(r.seen[|r.seen| - 1]), 0))])
    case StepBack(id) =>
      var r := m.readers[id];
      var p := r.Position().value;
      m.(readers := m.readers[id :=
        Looking(LastBefore(p), Head, m.list.maxHeight - 1, m.Keys(), Some(Backwards(r, p, m.Keys())))])
  }

  /** A list just constructed. */
  ghost predicate IsNew(m: Machine) {
    m == Machine(List(1, seq(MAX_HEIGHT, _ => None), map[]), Idle, map[])
  }

  // Levels

  /** Nodes are linked bottom-up, so every level is part of the one below. */
  lemma LevelsNest(m: Machine, l: nat)
    ensures m.Level(l + 1) <= m.Level(l)
  {
  }

  /** Nothing a level holds is ever unlinked. */
  ghost predicate Grows(m: Machine, m2: Machine) {
    forall l: nat :: m.Level(l) <= m2.Level(l)
  }

  /** What readers know stays true when the list grows. */
  lemma ReaderStaysOk(m: Machine, m2: Machine, r: Reader)
    requires ReaderOk(m, r) && Grows(m, m2)
    ensures ReaderOk(m2, r)
  {
    assert m.Level(0) <= m2.Level(0);
    if r.Looking? { assert m.Level(r.level) <= m2.Level(r.level); }
  }

  lemma ReadersStayOk(m: Machine, m2: Machine)
    requires Ok(m) && ListOk(m2) && Grows(m, m2) && m2.readers == m.readers
    ensures Ok(m2)
  {
    forall id | id in m2.readers
      ensures ReaderOk(m2, m2.readers[id])
    {
      ReaderStaysOk(m, m2, m.readers[id]);
    }
  }

  // Insertion

  lemma BeginOk(m: Machine, step: Step)
    requires Ok(m) && step.Begin? && Allowed(m, step)
    ensures Ok(Apply(m, step)) && forall l: nat :: Apply(m, step).Level(l) == m.Level(l)
  {
    var m2 := Apply(m, step);
    assert step.key !in m.list.nodes by {
      if step.key in m.list.nodes { assert m.IsLinked(step.key, 0); }
    }
    forall l: nat ensures m2.Level(l) == m.Level(l) {}
    SameLinks(m, m2);
    ReadersStayOk(m, m2);
  }

  lemma StoreHeightOk(m: Machine)
    requires Ok(m) && Allowed(m, StoreHeight)
    ensures Ok(Apply(m, StoreHeight)) && forall l: nat :: Apply(m, StoreHeight).Level(l) == m.Level(l)
  {
    var m2 := Apply(m, StoreHeight);
    forall l: nat ensures m2.Level(l) == m.Level(l) {}
    SameLinks(m, m2);
    ReadersStayOk(m, m2);
  }

  /** A step that changes no link of a level's nodes keeps the levels in order. */
  lemma SameLinks(m: Machine, m2: Machine)
    requires LinksOk(m) && |m.list.heads| == MAX_HEIGHT && m2.list.heads == m.list.heads
    requires forall l: nat :: m2.Level(l) == m.Level(l)
    requires forall k, l: nat :: l < MAX_HEIGHT && k in m.Level(l) ==>
      HasLink(m2.list, Node(k), l) && m2.list.nodes[k][l] == m.list.nodes[k][l]
    ensures LinksOk(m2)
  {
    forall l: nat, p | l < MAX_HEIGHT && InLevel(m2.Level(l), p)
      ensures HasLink(m2.list, p, l) && IsNext(m2.Level(l), p, Next(m2.list, p, l))
    {
      assert InLevel(m.Level(l), p);
      assert Next(m2.list, p, l) == Next(m.list, p, l);
    }
  }

  lemma AllocateOk(m: Machine, step: Step)
    requires Ok(m) && step.Allocate? && Allowed(m, step)
    ensures Ok(Apply(m, step)) && forall l: nat :: Apply(m, step).Level(l) == m.Level(l)
  {
    var m2 := Apply(m, step);
    forall l: nat ensures m2.Level(l) == m.Level(l) {}
    SameLinks(m, m2);
    ReadersStayOk(m, m2);
  }

  lemma SetOwnLinkOk(m: Machine)
    requires Ok(m) && Allowed(m, SetOwnLink)
    ensures Ok(Apply(m, SetOwnLink)) && forall l: nat :: Apply(m, SetOwnLink).Level(l) == m.Level(l)
  {
    var m2 := Apply(m, SetOwnLink);
    var w := m.writer;
    forall l: nat ensures m2.Level(l) == m.Level(l) {}
    SameLinks(m, m2);
    assert w.prev[w.linked] != Node(w.key);
    ReadersStayOk(m, m2);
  }

  /** One link published: the level gains the key, and the new node stands between its neighbours. */
  lemma LinkIn(level: set<real>, p: Place, key: real, next: Option<real>, q: Place, qNext: Option<real>)
    requires IsPrev(level, p, key) && IsNext(level, p, next) && key !in level
    requires InLevel(level, q) && IsNext(level, q, qNext) && (q == p ==> qNext == next)
    ensures IsNext(level + {key}, q, if q == p then Some(key) else qNext)
    ensures IsNext(level + {key}, Node(key), next)
  {
    if q != p && qNext.Some? && After(q, key) {
      if p.Node? && After(q, p.key) { assert qNext.value <= p.key; }
    }
  }

  lemma PublishedLevels(m: Machine)
    requires Ok(m) && Allowed(m, Publish)
    ensures var m2 := Apply(m, Publish);
            forall l: nat :: m2.Level(l) == if l == m.writer.linked then m.Level(l) + {m.writer.key} else m.Level(l)
    ensures m.writer.key !in m.Level(m.writer.linked)
  {
    var m2, w := Apply(m, Publish), m.writer;
    forall l
      ensures m2.Level(l) == if l == w.linked then m.Level(l) + {w.key} else m.Level(l)
    {
    }
  }

  lemma PublishKeepsLinks(m: Machine)
    requires Ok(m) && Allowed(m, Publish)
    ensures LinksOk(Apply(m, Publish))
  {
    var m2, w := Apply(m, Publish), m.writer;
    var p, i := w.prev[w.linked], w.linked;
    PublishedLevels(m);
    forall l: nat, q | l < MAX_HEIGHT && InLevel(m2.Level(l), q)
      ensures HasLink(m2.list, q, l) && IsNext(m2.Level(l), q, Next(m2.list, q, l))
    {
      if l == i {
        LinkIn(m.Level(i), p, w.key, Next(m.list, p, i), if q == Node(w.key) then p else q,
               Next(m.list, if q == Node(w.key) then p else q, i));
      } else {
        assert InLevel(m.Level(l), q) && Next(m2.list, q, l) == Next(m.list, q, l);
      }
    }
  }

  lemma PublishOk(m: Machine)
    requires Ok(m) && Allowed(m, Publish)
    ensures Ok(Apply(m, Publish)) && Grows(m, Apply(m, Publish))
  {
    var m2 := Apply(m, Publish);
    PublishKeepsLinks(m);
    PublishedLevels(m);
    ReadersStayOk(m, m2);
  }

  // Readers

  lemma ReaderChanged(m: Machine, id: nat, r: Reader)
    requires Ok(m) && ReaderOk(m, r)
    ensures Ok(m.(readers := m.readers[id := r]))
  {
    var m2 := m.(readers := m.readers[id := r]);
    forall l: nat ensures m2.Level(l) == m.Level(l) {}
    assert LinksOk(m2) by {
      forall l: nat, p | l < MAX_HEIGHT && InLevel(m2.Level(l), p)
        ensures HasLink(m2.list, p, l) && IsNext(m2.Level(l), p, Next(m2.list, p, l))
      {
        assert InLevel(m.Level(l), p) && Next(m.list, p, l) == Next(m2.list, p, l);
      }
    }
    forall i | i in m2.readers
      ensures ReaderOk(m2, m2.readers[i])
    {
      ReaderStaysOk(m, m2, m2.readers[i]);
    }
  }

  /** A search that has come to the end of the lowest level is right about the keys in the list at that moment. */
  lemma SearchEnds(search: Search, at: Place, next: Option<real>, present: set<real>)
    requires InLevel(present, at) && IsNext(present, at, next) && !GoesOn(search, next)
    requires at.Node? && !search.Last? ==> at.key < search.target
    ensures IsOutcome(search, at, next, present)
  {
    if at.Head? && search.Last? { assert forall k :: k !in present; }
  }

  lemma StartSearchOk(m: Machine, id: nat, search: Search)
    requires Ok(m) && Allowed(m, StartSearch(id, search))
    ensures Ok(Apply(m, StartSearch(id, search)))
  {
    var r := Looking(search, Head, m.list.maxHeight - 1, m.Keys(), None);
    assert ReaderOk(m, r);
    hide Ok, ReaderOk;
    ReaderChanged(m, id, r);
  }

  lemma StartScanOk(m: Machine, id: nat)
    requires Ok(m) && Allowed(m, StartScan(id))
    ensures Ok(Apply(m, StartScan(id)))
  {
    ReaderChanged(m, id, ScanFrom(m.readers[id]));
  }

  lemma SeekToFirstOk(m: Machine, id: nat)
    requires Ok(m) && Allowed(m, SeekToFirst(id))
    ensures Ok(Apply(m, SeekToFirst(id)))
  {
    var next := Next(m.list, Head, 0);
    assert InLevel(m.Level(0), Head) && IsNext(m.Keys(), Head, next);
    ReaderChanged(m, id, FromFirst(next, m.Keys()));
  }

  lemma StepBackOk(m: Machine, id: nat)
    requires Ok(m) && Allowed(m, StepBack(id))
    ensures Ok(Apply(m, StepBack(id)))
  {
    hide Ok, ReaderOk, BackOk, Backwards;
    var r := m.readers[id];
    var p := r.Position().value;
    ReaderIsOk(m, id);
    BackwardsOk(m, r);
    var r2 := Looking(LastBefore(p), Head, m.list.maxHeight - 1, m.Keys(), Some(Backwards(r, p, m.Keys())));
    SearchBackOk(m, r2);
    ReaderChanged(m, id, r2);
  }

  lemma ReaderIsOk(m: Machine, id: nat)
    requires Ok(m) && id in m.readers
    ensures ReaderOk(m, m.readers[id]) && m.list.maxHeight <= MAX_HEIGHT
  {
  }

  lemma SearchBackOk(m: Machine, r: Reader)
    requires r.Looking? && r.at == Head && r.level < MAX_HEIGHT && r.began == m.Keys() && r.back.Some?
    requires BackOk(r.back.value, m.Keys()) && r.search == LastBefore(r.back.value.seen[|r.back.value.seen| - 1])
    ensures ReaderOk(m, r)
  {
  }

  lemma PositionIsThere(m: Machine, r: Reader)
    requires ReaderOk(m, r) && r.Position().Some?
    ensures r.Position().value in m.Keys()
  {
    if r.Scanning? { assert r.seen[|r.seen| - 1] in r.seen; }
  }

  /** One more key seen on the way back. */
  lemma BackwardsOk(m: Machine, r: Reader)
    requires ReaderOk(m, r) && r.Position().Some?
    ensures var b := Backwards(r, r.Position().value, m.Keys());
            BackOk(b, m.Keys()) && b.seen[|b.seen| - 1] == r.Position().value
  {
    var p := r.Position().value;
    PositionIsThere(m, r);
    if r.Done? && r.back.Some? {
      var b := r.back.value;
      assert b.seen[|b.seen| - 1] in b.seen;
      forall k | k in b.began && UpTo(b.from, k) && k >= p
        ensures k in b.seen + [p]
      {
      }
    }
  }

  lemma ReadNextOk(m: Machine, id: nat)
    requires Ok(m) && Allowed(m, ReadNext(id))
    ensures Ok(Apply(m, ReadNext(id)))
  {
    var r := m.readers[id];
    var next := Next(m.list, r.at, r.level);
    assert IsNext(m.Level(r.level), r.at, next);
    if !GoesOn(r.search, next) {
      if r.level > 0 {
        LevelsNest(m, r.level - 1);
      } else {
        SearchEnds(r.search, r.at, next, m.Keys());
      }
    }
    ReaderChanged(m, id, AfterRead(r, next, m.Keys()));
  }

  lemma ScanNextOk(m: Machine, id: nat)
    requires Ok(m) && Allowed(m, ScanNext(id))
    ensures Ok(Apply(m, ScanNext(id)))
  {
    var r := m.readers[id];
    var last := r.seen[|r.seen| - 1];
    assert last in r.seen;
    var next := Next(m.list, Node(last), 0);
    assert InLevel(m.Level(0), Node(last)) && IsNext(m.Keys(), Node(last), next);
    var r2 := ScanOn(r, next);
    forall k | k in r.began && FromOn(r.from, k) && (r2.ended || k <= r2.seen[|r2.seen| - 1])
      ensures k in r2.seen
    {
      assert k <= last ==> k in r.seen;
    }
    ReaderChanged(m, id, r2);
  }

  lemma StepKeepsOk(m: Machine, step: Step)
    requires Ok(m) && Allowed(m, step)
    ensures Ok(Apply(m, step))
  {
    hide Ok;
    match step
    case Begin(_, _, _) => BeginOk(m, step);
    case StoreHeight => StoreHeightOk(m);
    case Allocate(_) => AllocateOk(m, step);
    case SetOwnLink => SetOwnLinkOk(m);
    case Publish => PublishOk(m);
    case StartSearch(id, search) => StartSearchOk(m, id, search);
    case ReadNext(id) => ReadNextOk(m, id);
    case SeekToFirst(id) => SeekToFirstOk(m, id);
    case StepBack(id) => StepBackOk(m, id);
    case StartScan(id) => StartScanOk(m, id);
    case ScanNext(id) => ScanNextOk(m, id);
  }

  /** A reader is never at a link that is missing or not yet written. */
  lemma ReadersMayRead(m: Machine, id: nat)
    requires Ok(m) && id in m.readers
    ensures m.readers[id].Looking? ==> Allowed(m, ReadNext(id))
    ensures m.readers[id].Scanning? && !m.readers[id].ended ==> Allowed(m, ScanNext(id))
    ensures m.readers[id].Position().Some? ==> Allowed(m, StepBack(id))
  {
    var r := m.readers[id];
    match r
    case Looking(_, at, level, _, _) => assert InLevel(m.Level(level), at);
    case Scanning(_, seen, ended, _) => if !ended { assert seen[|seen| - 1] in seen; }
    case Done(_, _, _, _, _, _) =>
  }

  // Runs

  ghost predicate IsRun(m: Machine, steps: seq<Step>)
    decreases |steps|
  {
    steps != [] ==> Allowed(m, steps[0]) && IsRun(Apply(m, steps[0]), steps[1..])
  }

  ghost function EndOf(m: Machine, steps: seq<Step>): Machine
    requires IsRun(m, steps)
    decreases |steps|
  {
    if steps == [] then m else EndOf(Apply(m, steps[0]), steps[1..])
  }

  lemma {:induction false} RunKeepsOk(m: Machine, steps: seq<Step>)
    requires Ok(m) && IsRun(m, steps)
    ensures Ok(EndOf(m, steps))
    decreases |steps|
  {
    if steps != [] {
      StepKeepsOk(m, steps[0]);
      RunKeepsOk(Apply(m, steps[0]), steps[1..]);
    }
  }

  lemma NewIsOk(m: Machine)
    requires IsNew(m)
    ensures Ok(m) && m.Keys() == {}
  {
    forall l: nat, p | l < MAX_HEIGHT && InLevel(m.Level(l), p)
      ensures HasLink(m.list, p, l) && IsNext(m.Level(l), p, Next(m.list, p, l))
    {
      assert p == Head;
    }
  }

  /** Whatever the interleaving: every level is a sorted list, and every reader is right. */
  lemma ReachableIsOk(m: Machine, steps: seq<Step>)
    requires IsNew(m) && IsRun(m, steps)
    ensures Ok(EndOf(m, steps))
  {
    NewIsOk(m);
    RunKeepsOk(m, steps);
  }

  /** Every search that is done was right about the keys in the list at its last load, and missed none it began with. */
  lemma SearchesAreRight(m: Machine, steps: seq<Step>, id: nat)
    requires IsNew(m) && IsRun(m, steps) && id in EndOf(m, steps).readers && EndOf(m, steps).readers[id].Done?
    ensures var r := EndOf(m, steps).readers[id];
            IsOutcome(r.search, r.at, r.next, r.present) && r.began <= r.present <= EndOf(m, steps).Keys()
  {
    ReachableIsOk(m, steps);
  }

  /** A finished scan, from a key or the first one on, has seen all keys from there on that were there when it began. */
  lemma ScansMissNothing(m: Machine, steps: seq<Step>, id: nat, k: real)
    requires IsNew(m) && IsRun(m, steps) && id in EndOf(m, steps).readers && EndOf(m, steps).readers[id].Scanning?
    ensures var r := EndOf(m, steps).readers[id];
            Increasing(r.seen) && (r.ended && k in r.began && FromOn(r.from, k) ==> k in r.seen)
  {
    ReachableIsOk(m, steps);
  }

  /** A scan backwards that has come to the front has seen all keys up to its start that were there when it began. */
  lemma BackwardScansMissNothing(m: Machine, steps: seq<Step>, id: nat, k: real)
    requires IsNew(m) && IsRun(m, steps) && id in EndOf(m, steps).readers
    requires var r := EndOf(m, steps).readers[id]; r.Done? && r.back.Some?
    ensures var r := EndOf(m, steps).readers[id];
            && Decreasing(r.back.value.seen)
            && (r.at.Head? && k in r.back.value.began && UpTo(r.back.value.from, k) ==> k in r.back.value.seen)
  {
    ReachableIsOk(m, steps);
  }

  /** While the list stands still, every load brings a search nearer to its end. */
  lemma ReadNextProgresses(m: Machine, id: nat)
    requires Ok(m) && Allowed(m, ReadNext(id)) && Apply(m, ReadNext(id)).readers[id].Looking?
    ensures var r, r2 := m.readers[id], Apply(m, ReadNext(id)).readers[id];
            r2.level < r.level || (r2.level == r.level && Rest(m.Level(r.level), r2.at) < Rest(m.Level(r.level), r.at))
  {
    var r := m.readers[id];
    var next := Next(m.list, r.at, r.level);
    if GoesOn(r.search, next) { RestShrinks(m.Level(r.level), r.at, next.value); }
  }

  // The lists

  /** The keys of a level after a place. */
  ghost function Rest(level: set<real>, p: Place): set<real> {
    set k | k in level && After(p, k)
  }

  lemma RestShrinks(level: set<real>, p: Place, n: real)
    requires n in level && After(p, n)
    ensures Rest(level, Node(n)) < Rest(level, p)
  {
    assert n in Rest(level, p) && n !in Rest(level, Node(n));
  }

  /** The keys met along a level's links. */
  ghost function Walk(m: Machine, l: nat, p: Place): seq<real>
    requires LinksOk(m) && l < MAX_HEIGHT && InLevel(m.Level(l), p)
    decreases Rest(m.Level(l), p)
  {
    match Next(m.list, p, l)
    case None => []
    case Some(n) =>
      RestShrinks(m.Level(l), p, n);
      [n] + Walk(m, l, Node(n))
  }

  lemma {:induction false} WalkIsSorted(m: Machine, l: nat, p: Place)
    requires LinksOk(m) && l < MAX_HEIGHT && InLevel(m.Level(l), p)
    ensures Increasing(Walk(m, l, p))
    ensures forall k :: k in Walk(m, l, p) <==> k in Rest(m.Level(l), p)
    decreases Rest(m.Level(l), p)
  {
    match Next(m.list, p, l)
    case None =>
      assert IsNext(m.Level(l), p, None);
    case Some(n) =>
      RestShrinks(m.Level(l), p, n);
      WalkIsSorted(m, l, Node(n));
      assert IsNext(m.Level(l), p, Some(n));
      var rest := Walk(m, l, Node(n));
      assert forall j :: 0 <= j < |rest| ==> rest[j] in rest;
  }

  /** The part of a list whose keys are in a set. */
  ghost function Kept(s: seq<real>, keys: set<real>): seq<real> {
    if s == [] then []
    else if s[|s| - 1] in keys then Kept(s[..|s| - 1], keys) + [s[|s| - 1]]
    else Kept(s[..|s| - 1], keys)
  }

  lemma {:induction false} KeptIsSorted(s: seq<real>, keys: set<real>)
    requires Increasing(s)
    ensures Increasing(Kept(s, keys)) && forall k :: k in Kept(s, keys) <==> k in s && k in keys
  {
    if s != [] {
      var front, last := s[..|s| - 1], s[|s| - 1];
      KeptIsSorted(front, keys);
      assert s == front + [last];
      forall j | 0 <= j < |Kept(front, keys)|
        ensures Kept(front, keys)[j] < last
      {
        assert Kept(front, keys)[j] in Kept(front, keys);
      }
    }
  }

  lemma LastOfSorted(s: seq<real>)
    requires Increasing(s) && s != []
    ensures Increasing(s[..|s| - 1]) && s[|s| - 1] in s && forall k :: k in s ==> k <= s[|s| - 1]
    ensures forall k :: k in s[..|s| - 1] <==> k in s && k != s[|s| - 1]
  {
    var front, last := s[..|s| - 1], s[|s| - 1];
    assert s == front + [last];
    forall k | k in front
      ensures k < last
    {
      var i :| 0 <= i < |front| && front[i] == k;
    }
  }

  lemma {:induction false} SortedIsUnique(a: seq<real>, b: seq<real>)
    requires Increasing(a) && Increasing(b) && forall k :: k in a <==> k in b
    ensures a == b
  {
    if a != [] { LastOfSorted(a); }
    if b != [] { LastOfSorted(b); }
    if a != [] && b != [] {
      var a2, b2, x := a[..|a| - 1], b[..|b| - 1], a[|a| - 1];
      assert x in b && b[|b| - 1] in a;
      forall k
        ensures k in a2 <==> k in b2
      {
        assert (k in a2 <==> k in a && k != x) && (k in b2 <==> k in b && k != x);
      }
      SortedIsUnique(a2, b2);
      assert a == a2 + [x] && b == b2 + [x];
    }
  }

  /** In every state the links of a level form the sorted list of its keys, a sublist of the level below. */
  lemma LevelsAreSublists(m: Machine, l: nat)
    requires Ok(m) && l + 1 < MAX_HEIGHT
    ensures Increasing(Walk(m, l, Head)) && forall k :: k in Walk(m, l, Head) <==> k in m.Level(l)
    ensures Walk(m, l + 1, Head) == Kept(Walk(m, l, Head), m.Level(l + 1))
  {
    WalkIsSorted(m, l, Head);
    WalkIsSorted(m, l + 1, Head);
    LevelsNest(m, l);
    KeptIsSorted(Walk(m, l, Head), m.Level(l + 1));
    SortedIsUnique(Walk(m, l + 1, Head), Kept(Walk(m, l, Head), m.Level(l + 1)));
  }

  // The code

  lemma {:induction false} RunExtends(m: Machine, steps: seq<Step>, step: Step)
    requires IsRun(m, steps) && Allowed(EndOf(m, steps), step)
    ensures IsRun(m, steps + [step]) && EndOf(m, steps + [step]) == Apply(EndOf(m, steps), step)
    decreases |steps|
  {
    if steps == [] {
      assert IsRun(Apply(m, step), []) && ([step])[1..] == [];
      assert steps + [step] == [step];
    } else {
      RunExtends(Apply(m, steps[0]), steps[1..], step);
      assert (steps + [step])[1..] == steps[1..] + [step];
    }
  }

  class SkipList {
    var maxHeight: nat
    var heads: seq<Option<real>>
    var nodes: map<real, seq<Option<real>>>

    function Links(): List
      reads this
    {
      List(maxHeight, heads, nodes)
    }

    /** The list between insertions. */
    function View(): Machine
      reads this
    {
      Machine(Links(), Idle, map[])
    }

    constructor ()
      ensures IsNew(View()) && ListOk(View())
    {
      maxHeight, heads, nodes := 1, seq(MAX_HEIGHT, _ => None), map[];
      new;
      NewIsOk(View());
    }

    /** The first node at or after the key, and at every level the last place before it. */
    method FindGreaterOrEqual(key: real) returns (node: Option<real>, prev: seq<Place>)
      requires ListOk(View())
      ensures IsOutcome(AtOrAfter(key), Head, node, View().Keys())
      ensures |prev| == maxHeight && forall l :: 0 <= l < maxHeight ==> IsPrev(View().Level(l), prev[l], key)
    {
      var x, level: nat := Head, maxHeight - 1;
      prev := seq(maxHeight, _ => Head);
      while true
        invariant level < maxHeight == |prev| && InLevel(View().Level(level), x) && After(x, key)
        invariant forall l :: level < l < maxHeight ==> IsPrev(View().Level(l), prev[l], key)
        decreases level, Rest(View().Level(level), x)
      {
        var next := Next(Links(), x, level);
        assert IsNext(View().Level(level), x, next);
        if next.Some? && next.value < key {
          RestShrinks(View().Level(level), x, next.value);
          x := Node(next.value);
        } else {
          prev := prev[level := x];
          if level == 0 {
            return next, prev;
          }
          LevelsNest(View(), level - 1);
          level := level - 1;
        }
      }
    }

    method FindLessThan(key: real) returns (x: Place)
      requires ListOk(View())
      ensures IsOutcome(LastBefore(key), x, None, View().Keys())
    {
      x := Head;
      var level: nat := maxHeight - 1;
      while true
        invariant level < maxHeight && InLevel(View().Level(level), x) && After(x, key)
        decreases level, Rest(View().Level(level), x)
      {
        var next := Next(Links(), x, level);
        assert IsNext(View().Level(level), x, next);
        if next.None? || next.value >= key {
          if level == 0 {
            return;
          }
          LevelsNest(View(), level - 1);
          level := level - 1;
        } else {
          RestShrinks(View().Level(level), x, next.value);
          x := Node(next.value);
        }
      }
    }

    method FindLast() returns (x: Place)
      requires ListOk(View())
      ensures IsOutcome(Last, x, None, View().Keys())
    {
      x := Head;
      var level: nat := maxHeight - 1;
      while true
        invariant level < maxHeight && InLevel(View().Level(level), x)
        decreases level, Rest(View().Level(level), x)
      {
        var next := Next(Links(), x, level);
        assert IsNext(View().Level(level), x, next);
        if next.None? {
          if level == 0 {
            SearchEnds(Last, x, next, View().Keys());
            return;
          }
          LevelsNest(View(), level - 1);
          level := level - 1;
        } else {
          RestShrinks(View().Level(level), x, next.value);
          x := Node(next.value);
        }
      }
    }

    method Contains(key: real) returns (found: bool)
      requires ListOk(View())
      ensures found <==> key in View().Keys()
    {
      var x, _ := FindGreaterOrEqual(key);
      found := x.Some? && x.value == key;
    }

    /** Inserts a key with a node of the given height, passing through the steps of the state machine only. */
    method Insert(key: real, height: nat) returns (ghost steps: seq<Step>)
      requires ListOk(View()) && key !in View().Keys() && 1 <= height <= MAX_HEIGHT
      modifies this
      ensures ListOk(View()) && View().Keys() == old(View().Keys()) + {key}
      ensures IsRun(old(View()), steps) && EndOf(old(View()), steps) == View()
    {
      ghost var start := View();
      var x, prev := FindGreaterOrEqual(key);
      prev := Extended(prev, key, height);
      if height > maxHeight {
        maxHeight := height;
      }
      assert |seq<Option<real>>(height, _ => None)| == height;
      var tower: seq<Option<real>> :| |tower| == height;  // not yet initialized
      nodes := nodes[key := tower];
      ghost var m;
      steps, m := Prepare(start, key, height, prev, tower);
      steps, m := LinkNode(key, height, prev, start, steps, m);
    }

    /** Links a new node in, from the lowest level up. */
    method LinkNode(key: real, height: nat, prev: seq<Place>, ghost start: Machine, ghost steps0: seq<Step>,
                    ghost m0: Machine)
      returns (ghost steps: seq<Step>, ghost m: Machine)
      requires m0 == Machine(Links(), Inserting(key, height, prev, true, false, 0), map[]) && Reaches(start, steps0, m0)
      modifies this
      ensures m == View() && Reaches(start, steps, m) && m.Keys() == m0.Keys() + {key}
    {
      steps, m := steps0, m0;
      for i := 0 to height
        invariant m == Machine(Links(), if i == height then Idle else Inserting(key, height, prev, true, false, i), map[])
        invariant Reaches(start, steps, m) && m.Keys() == if i == 0 then m0.Keys() else m0.Keys() + {key}
      {
        MayStore(m);
        StoreNext(Node(key), i, Next(Links(), prev[i], i));
        StoreNext(prev[i], i, Some(key));
        steps, m := LinkOne(start, steps, m);
      }
    }

    /** The head comes before the node at the levels not in use yet. */
    method Extended(prev: seq<Place>, key: real, height: nat) returns (r: seq<Place>)
      requires ListOk(View()) && |prev| == maxHeight && 1 <= height <= MAX_HEIGHT
      requires forall l :: 0 <= l < maxHeight ==> IsPrev(View().Level(l), prev[l], key)
      ensures Predecessors(View(), key, height, r)
    {
      r := prev;
      if height > maxHeight {
        for i := maxHeight to height
          invariant |r| == i && forall l :: 0 <= l < i ==> IsPrev(View().Level(l), r[l], key)
        {
          r := r + [Head];
        }
      } else {
        r := r[..height];
      }
    }

    method StoreNext(p: Place, l: nat, to: Option<real>)
      requires HasLink(Links(), p, l)
      modifies this
      ensures Links() == SetNext(old(Links()), p, l, to)
    {
      match p
      case Head => heads := heads[l := to];
      case Node(k) => nodes := nodes[k := nodes[k][l := to]];
    }
  }

  ghost predicate Reaches(start: Machine, steps: seq<Step>, m: Machine) {
    Ok(m) && IsRun(start, steps) && EndOf(start, steps) == m
  }

  /** One more step of a run. */
  lemma Then(start: Machine, steps: seq<Step>, m: Machine, step: Step) returns (steps2: seq<Step>, m2: Machine)
    requires Reaches(start, steps, m) && Allowed(m, step)
    ensures m2 == Apply(m, step) && Reaches(start, steps2, m2)
  {
    RunExtends(start, steps, step);
    StepKeepsOk(m, step);
    steps2, m2 := steps + [step], Apply(m, step);
  }

  /** The first steps of an insertion. */
  lemma Prepare(start: Machine, key: real, height: nat, prev: seq<Place>, tower: seq<Option<real>>)
    returns (steps: seq<Step>, m: Machine)
    requires Ok(start) && Allowed(start, Begin(key, height, prev)) && |tower| == height
    ensures Reaches(start, steps, m) && m.Keys() == start.Keys()
    ensures m.readers == start.readers && m.writer == Inserting(key, height, prev, true, false, 0)
    ensures m.list.maxHeight == (if height > start.list.maxHeight then height else start.list.maxHeight)
    ensures m.list.heads == start.list.heads && m.list.nodes == start.list.nodes[key := tower]
  {
    BeginOk(start, Begin(key, height, prev));
    steps, m := Then(start, [], start, Begin(key, height, prev));
    if height > start.list.maxHeight {
      StoreHeightOk(m);
      steps, m := Then(start, steps, m, StoreHeight);
    }
    AllocateOk(m, Allocate(tower));
    steps, m := Then(start, steps, m, Allocate(tower));
  }

  /** A node linked in behind a place of a level. */
  function LinkedIn(s: List, key: real, p: Place, l: nat): List
    requires HasLink(s, Node(key), l) && HasLink(s, p, l)
  {
    SetNext(SetNext(s, Node(key), l, Next(s, p, l)), p, l, Some(key))
  }

  lemma LinkOne(start: Machine, steps: seq<Step>, m: Machine) returns (steps2: seq<Step>, m2: Machine)
    requires Reaches(start, steps, m) && m.writer.Inserting? && m.writer.made && !m.writer.ready && CanStore(m)
    ensures Reaches(start, steps2, m2) && m2.readers == m.readers
    ensures m2.list == LinkedIn(m.list, m.writer.key, m.writer.prev[m.writer.linked], m.writer.linked)
    ensures m2.writer ==
            if m.writer.linked + 1 == m.writer.height then Idle else m.writer.(linked := m.writer.linked + 1)
    ensures m2.Keys() == if m.writer.linked == 0 then m.Keys() + {m.writer.key} else m.Keys()
  {
    SetOwnLinkOk(m);
    steps2, m2 := Then(start, steps, m, SetOwnLink);
    MayStore(m2);
    PublishedLevels(m2);
    steps2, m2 := Then(start, steps2, m2, Publish);
  }

  /** An insertion finds the links it has to store. */
  lemma MayStore(m: Machine)
    requires Ok(m) && m.writer.Inserting? && m.writer.made
    ensures CanStore(m)
  {
    var w := m.writer;
    assert IsPrev(m.Level(w.linked), w.prev[w.linked], w.key);
  }
}
