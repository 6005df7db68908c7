/** Bucket::merge as it runs: two input iterators, one output iterator and the iterators over the shadows,
    each going forward once (src/bucket/Bucket.cpp). */
module BucketMerge {
  import opened Arithmetic
  import opened LedgerCmp
  import opened Lifecycle
  import opened Wrappers
  import opened Buckets
  import opened BucketIterators

  datatype FileResult = Written(file: seq<BucketEntry>) | Threw(error: MergeError)

  // ----- shadows

  /** The number of entries an iterator has passed. */
  ghost function Passed(it: BucketInputIterator): (r: nat)
    requires it.Valid()
    reads it
  {
    it.Index() - FirstEntry(it.file)
  }

  predicate AllBelow(s: seq<Change>, n: nat, k: LedgerKey)
    requires n <= |s|
  {
    forall j :: 0 <= j < n ==> KeyLess(s[j].key, k)
  }

  /** The iterator has passed only entries with keys below k. */
  ghost predicate PassedBelow(it: BucketInputIterator, b: Bucket, k: LedgerKey)
    reads it
  {
    it.Valid() && Delivers(it, b, Passed(it)) && AllBelow(b.changes, Passed(it), k)
  }

  /** What the scan of a sorted bucket sees at the first entry not below k. */
  lemma {:induction false} ScanDecides(s: seq<Change>, i: nat, k: LedgerKey)
    requires Sorted(s) && i <= |s|
    requires AllBelow(s, i, k)
    requires i < |s| ==> !KeyLess(s[i].key, k)
    ensures Find(s, k).Some? <==> i < |s| && !KeyLess(k, s[i].key)
  {
    if i < |s| {
      KeyLessTotal(s[i].key, k);
      if s[i].key == k {
        FindAt(s, i);
      }
    }
    if Find(s, k).Some? {
      var j :| 0 <= j < |s| && s[j] == Find(s, k).value;
      KeyLessTotal(s[j].key, k);
      if i < j {
        assert KeyLess(s[i].key, s[j].key);
      }
    }
  }

  /** Steps a shadow iterator forward to the first entry not below the candidate. */
  method SkipBelow(si: BucketInputIterator, ghost b: Bucket, k: LedgerKey) returns (ghost n: nat)
    requires PassedBelow(si, b, k)
    modifies si
    ensures n <= |b.changes| && Delivers(si, b, n) && AllBelow(b.changes, n, k)
    ensures n < |b.changes| ==> !KeyLess(b.changes[n].key, k)
  {
    n := Passed(si);
    while si.entry.Some? && KeyLess(si.entry.value.key, k)
      invariant n <= |b.changes| && Delivers(si, b, n) && AllBelow(b.changes, n, k)
      decreases |b.changes| - n
    {
      AllBelowNext(b.changes, n, k);
      Advance(si, b, n);
      n := n + 1;
    }
  }

  /** The iterator then stands on the candidate's key exactly if the shadow holds that key at all. */
  method ScanShadow(si: BucketInputIterator, ghost b: Bucket, k: LedgerKey) returns (shadowed: bool)
    requires PassedBelow(si, b, k)
    modifies si
    ensures PassedBelow(si, b, k)
    ensures shadowed <==> Get(b, k).Some?
  {
    ghost var n := SkipBelow(si, b, k);
    assert Passed(si) == n;
    ScanDecides(b.changes, n, k);
    return si.entry.Some? && !KeyLess(k, si.entry.value.key);
  }

  lemma AllBelowNext(s: seq<Change>, n: nat, k: LedgerKey)
    requires n < |s| && AllBelow(s, n, k) && KeyLess(s[n].key, k)
    ensures AllBelow(s, n + 1, k)
  {
  }

  ghost predicate ShadowsPassed(sis: seq<BucketInputIterator>, shadows: seq<Bucket>, k: LedgerKey)
    reads sis
  {
    && |sis| == |shadows|
    && (forall i, j :: 0 <= i < j < |sis| ==> sis[i] != sis[j])
    && forall i :: 0 <= i < |sis| ==> PassedBelow(sis[i], shadows[i], k)
  }

  lemma PassedBelowHigher(it: BucketInputIterator, b: Bucket, j: LedgerKey, k: LedgerKey)
    requires PassedBelow(it, b, j) && KeyLess(j, k)
    ensures PassedBelow(it, b, k)
  {
    forall i | 0 <= i < Passed(it) ensures KeyLess(b.changes[i].key, k) {
      KeyLessTransitive(b.changes[i].key, j, k);
    }
  }

  /** Scanning one shadow leaves the others where they are. */
  method ScanOne(sis: seq<BucketInputIterator>, ghost shadows: seq<Bucket>, i: nat, k: LedgerKey)
      returns (shadowed: bool)
    requires ShadowsPassed(sis, shadows, k) && i < |sis|
    modifies sis
    ensures ShadowsPassed(sis, shadows, k)
    ensures shadowed <==> Get(shadows[i], k).Some?
  {
    label before:
    assert PassedBelow(sis[i], shadows[i], k);
    shadowed := ScanShadow(sis[i], shadows[i], k);
    forall j | 0 <= j < |sis| ensures PassedBelow(sis[j], shadows[j], k) {
      if j != i {
        assert sis[j] != sis[i];
        assert old@before(PassedBelow(sis[j], shadows[j], k));
      }
    }
  }

  lemma ShadowedNext(shadows: seq<Bucket>, i: nat, k: LedgerKey)
    requires i < |shadows| && !Shadowed(shadows[..i], k)
    ensures Shadowed(shadows[..i + 1], k) <==> Get(shadows[i], k).Some?
    ensures Get(shadows[i], k).Some? ==> Shadowed(shadows, k)
  {
    assert shadows[..i + 1][i] == shadows[i];
    assert forall j :: 0 <= j < i ==> shadows[..i + 1][j] == shadows[..i][j];
  }

  /** Whether some shadow holds the key, scanning each no further than needed. */
  method IsShadowed(sis: seq<BucketInputIterator>, ghost shadows: seq<Bucket>, k: LedgerKey) returns (shadowed: bool)
    requires ShadowsPassed(sis, shadows, k)
    modifies sis
    ensures ShadowsPassed(sis, shadows, k)
    ensures shadowed <==> Shadowed(shadows, k)
  {
    for i := 0 to |sis|
      invariant ShadowsPassed(sis, shadows, k) && !Shadowed(shadows[..i], k)
    {
      shadowed := ScanOne(sis, shadows, i, k);
      ShadowedNext(shadows, i, k);
      if shadowed {
        return true;
      }
    }
    assert shadows[..|sis|] == shadows;
    return false;
  }

  /** maybePut: puts the entry unless it is elided. */
  method MaybePut(out: BucketOutputIterator, c: Change, sis: seq<BucketInputIterator>, ghost s: Setting)
    requires out.Valid() && out.version == s.version && out.keepDead == s.keepDead && s.Legal(c)
    requires out.buf.Some? ==> EntryLess(out.buf.value, Entry(c))
    requires ShadowsPassed(sis, s.shadows, c.key)
    modifies out, sis
    ensures out.Valid()
    ensures out.Contents() == old(out.Contents()) + if s.Puts(c) then [Entry(c)] else []
    ensures out.buf == if s.Puts(c) then Some(Entry(c)) else old(out.buf)
    ensures ShadowsPassed(sis, s.shadows, c.key)
  {
    EntryLessIsStrictTotalOrder(if out.buf.Some? then out.buf.value else Entry(c), Entry(c), Entry(c));
    if FIRST_PROTOCOL_SUPPORTING_INITENTRY_AND_METAENTRY <= out.version && (c.Init? || c.Dead?) {
      var ok := out.Put(Entry(c));
      assert ok;
      return;
    }
    var shadowed := IsShadowed(sis, s.shadows, c.key);
    if !shadowed {
      var ok := out.Put(Entry(c));
      assert ok;
    }
  }

  // ----- the merge loop

  /** A merge in progress: `i` old and `j` new entries taken, `acc` put so far, `last` the last key seen. */
  datatype Progress = Progress(i: nat, j: nat, acc: seq<Change>, last: Option<LedgerKey>)

  function Follow(acc: seq<Change>, rest: Entries): (r: Entries) {
    if rest.Rejected? then rest else Entries(acc + rest.changes)
  }

  predicate Beyond(last: Option<LedgerKey>, s: seq<Change>) {
    last.Some? ==> AllAbove(last.value, s)
  }

  /** What is put and what remains make up the whole merge, and all that remains lies ahead. */
  predicate OnTrack(s: Setting, o: seq<Change>, n: seq<Change>, p: Progress) {
    && p.i <= |o| && p.j <= |n|
    && Beyond(p.last, o[p.i..]) && Beyond(p.last, n[p.j..])
    && Follow(p.acc, MergeChanges(s, o[p.i..], n[p.j..])) == MergeChanges(s, o, n)
  }

  function Emitted(s: Setting, c: Option<Change>): (r: seq<Change>) {
    if s.Emit(c).Some? then [s.Emit(c).value] else []
  }

  lemma FollowPrepend(acc: seq<Change>, s: Setting, c: Option<Change>, rest: Entries)
    ensures Follow(acc, Prepend(s.Emit(c), rest)) == Follow(acc + Emitted(s, c), rest)
  {
    if rest.Entries? && s.Emit(c).Some? {
      assert acc + ([s.Emit(c).value] + rest.changes) == acc + [s.Emit(c).value] + rest.changes;
    }
  }

  lemma {:induction false} TakeOld(s: Setting, o: seq<Change>, n: seq<Change>, p: Progress)
    requires Sorted(o) && Sorted(n) && OnTrack(s, o, n, p)
    requires p.i < |o| && (p.j == |n| || KeyLess(o[p.i].key, n[p.j].key))
    ensures !s.Legal(o[p.i]) ==> MergeChanges(s, o, n) == Rejected(IllegalEntry)
    ensures s.Legal(o[p.i]) ==>
              OnTrack(s, o, n, Progress(p.i + 1, p.j, p.acc + Emitted(s, Some(o[p.i])), Some(o[p.i].key)))
  {
    var x, y := o[p.i..], n[p.j..];
    assert x[0] == o[p.i] && x[1..] == o[p.i + 1..];
    assert p.j < |n| ==> y[0] == n[p.j];
    HeadIsLeast(x, y);
    FollowPrepend(p.acc, s, Some(x[0]), MergeChanges(s, x[1..], y));
  }

  lemma {:induction false} TakeNew(s: Setting, o: seq<Change>, n: seq<Change>, p: Progress)
    requires Sorted(o) && Sorted(n) && OnTrack(s, o, n, p)
    requires p.j < |n| && (p.i == |o| || KeyLess(n[p.j].key, o[p.i].key))
    ensures !s.Legal(n[p.j]) ==> MergeChanges(s, o, n) == Rejected(IllegalEntry)
    ensures s.Legal(n[p.j]) ==>
              OnTrack(s, o, n, Progress(p.i, p.j + 1, p.acc + Emitted(s, Some(n[p.j])), Some(n[p.j].key)))
  {
    var x, y := o[p.i..], n[p.j..];
    assert y[0] == n[p.j] && y[1..] == n[p.j + 1..];
    if p.i < |o| {
      assert x[0] == o[p.i];
      KeyLessTotal(n[p.j].key, o[p.i].key);
    }
    HeadIsLeast(y, x);
    FollowPrepend(p.acc, s, Some(y[0]), MergeChanges(s, x, y[1..]));
  }

  lemma {:induction false} TakeBoth(s: Setting, o: seq<Change>, n: seq<Change>, p: Progress)
    requires Sorted(o) && Sorted(n) && OnTrack(s, o, n, p)
    requires p.i < |o| && p.j < |n| && o[p.i].key == n[p.j].key
    ensures !s.Legal(o[p.i]) || !s.Legal(n[p.j]) ==> MergeChanges(s, o, n) == Rejected(IllegalEntry)
    ensures s.Legal(o[p.i]) && s.Legal(n[p.j]) && Clash(Some(o[p.i]), Some(n[p.j])) ==>
              MergeChanges(s, o, n) == Rejected(Malformed)
    ensures s.Legal(o[p.i]) && s.Legal(n[p.j]) && !Clash(Some(o[p.i]), Some(n[p.j])) ==>
              OnTrack(s, o, n, Progress(p.i + 1, p.j + 1,
                p.acc + Emitted(s, Compose(Some(o[p.i]), Some(n[p.j]))), Some(o[p.i].key)))
  {
    var x, y := o[p.i..], n[p.j..];
    assert x[0] == o[p.i] && x[1..] == o[p.i + 1..];
    assert y[0] == n[p.j] && y[1..] == n[p.j + 1..];
    MergeEqualHeads(s, x, y);
    SortedTail(x);
    SortedTail(y);
    if !Clash(Some(x[0]), Some(y[0])) {
      FollowPrepend(p.acc, s, Compose(Some(x[0]), Some(y[0])), MergeChanges(s, x[1..], y[1..]));
    }
  }

  lemma {:induction false} MergeEqualHeads(s: Setting, x: seq<Change>, y: seq<Change>)
    requires x != [] && y != [] && x[0].key == y[0].key
    ensures MergeChanges(s, x, y) ==
              if !s.Legal(x[0]) || !s.Legal(y[0]) then Rejected(IllegalEntry)
              else if Clash(Some(x[0]), Some(y[0])) then Rejected(Malformed)
              else Prepend(s.Emit(Compose(Some(x[0]), Some(y[0]))), MergeChanges(s, x[1..], y[1..]))
  {
    KeyLessTotal(x[0].key, y[0].key);
  }

  function MetaRecords(version: nat): (r: seq<BucketEntry>) {
    if FIRST_PROTOCOL_SUPPORTING_INITENTRY_AND_METAENTRY <= version then [Meta(version)] else []
  }

  /** The buffered record does not lie ahead of the last key. */
  predicate BufferBehind(buf: Option<BucketEntry>, last: Option<LedgerKey>) {
    buf.Some? && buf.value.Entry? ==>
      last.Some? && (buf.value.change.key == last.value || KeyLess(buf.value.change.key, last.value))
  }

  ghost predicate ShadowsBehind(sis: seq<BucketInputIterator>, shadows: seq<Bucket>, last: Option<LedgerKey>)
    reads sis
  {
    forall k :: last.None? || last.value == k || KeyLess(last.value, k) ==> ShadowsPassed(sis, shadows, k)
  }

  lemma ShadowsStayBehind(sis: seq<BucketInputIterator>, shadows: seq<Bucket>, k: LedgerKey)
    requires ShadowsPassed(sis, shadows, k)
    ensures ShadowsBehind(sis, shadows, Some(k))
  {
    forall k' | KeyLess(k, k') ensures ShadowsPassed(sis, shadows, k') {
      forall i | 0 <= i < |sis| ensures PassedBelow(sis[i], shadows[i], k') {
        PassedBelowHigher(sis[i], shadows[i], k, k');
      }
    }
  }

  /** The output holds what was put; it and the shadows are behind the last key. */
  ghost predicate OutputAt(out: BucketOutputIterator, sis: seq<BucketInputIterator>, s: Setting, p: Progress)
    reads out, sis
  {
    && out.Valid() && out.version == s.version && out.keepDead == s.keepDead
    && out.Contents() == MetaRecords(s.version) + AsRecords(p.acc)
    && BufferBehind(out.buf, p.last)
    && ShadowsBehind(sis, s.shadows, p.last)
  }

  lemma BufferLess(buf: Option<BucketEntry>, last: Option<LedgerKey>, c: Change)
    requires BufferBehind(buf, last) && (last.Some? ==> KeyLess(last.value, c.key))
    ensures buf.Some? ==> EntryLess(buf.value, Entry(c))
  {
    if buf.Some? && buf.value.Entry? && buf.value.change.key != last.value {
      KeyLessTransitive(buf.value.change.key, last.value, c.key);
    }
  }

  /** Puts what a step of the merge emits. */
  method EmitNext(out: BucketOutputIterator, c: Change, sis: seq<BucketInputIterator>, ghost s: Setting,
                  ghost p: Progress)
    requires OutputAt(out, sis, s, p) && s.Legal(c)
    requires p.last.Some? ==> KeyLess(p.last.value, c.key)
    modifies out, sis
    ensures OutputAt(out, sis, s, p.(acc := p.acc + Emitted(s, Some(c)), last := Some(c.key)))
  {
    BufferLess(out.buf, p.last, c);
    assert ShadowsPassed(sis, s.shadows, c.key);
    ghost var buf := out.buf;
    MaybePut(out, c, sis, s);
    ShadowsStayBehind(sis, s.shadows, c.key);
    assert AsRecords(p.acc + Emitted(s, Some(c))) == AsRecords(p.acc) + if s.Puts(c) then [Entry(c)] else [];
  }

  /** The state of the merge loop. */
  ghost predicate Iterating(oi: BucketInputIterator, ni: BucketInputIterator, out: BucketOutputIterator,
                            sis: seq<BucketInputIterator>, older: Bucket, newer: Bucket, s: Setting, p: Progress)
    reads oi, ni, out, sis
  {
    && oi != ni && oi !in sis && ni !in sis
    && Delivers(oi, older, p.i) && Delivers(ni, newer, p.j)
    && OutputAt(out, sis, s, p)
    && OnTrack(s, older.changes, newer.changes, p)
  }

  /** Emits an entry and steps over it; the other iterator stays. */
  method EmitAndAdvance(it: BucketInputIterator, other: BucketInputIterator, out: BucketOutputIterator, c: Change,
                        sis: seq<BucketInputIterator>,
                        ghost b: Bucket, ghost n: nat, ghost ob: Bucket, ghost m: nat, ghost s: Setting,
                        ghost p: Progress)
    requires it != other && it !in sis && other !in sis
    requires Delivers(it, b, n) && n < |b.changes| && Delivers(other, ob, m)
    requires OutputAt(out, sis, s, p) && s.Legal(c) && (p.last.Some? ==> KeyLess(p.last.value, c.key))
    modifies it, out, sis
    ensures Delivers(it, b, n + 1) && Delivers(other, ob, m)
    ensures OutputAt(out, sis, s, p.(acc := p.acc + Emitted(s, Some(c)), last := Some(c.key)))
  {
    EmitNext(out, c, sis, s, p);
    Advance(it, b, n);
  }

  lemma NextIsAhead(last: Option<LedgerKey>, s: seq<Change>, i: nat)
    requires i < |s| && Beyond(last, s[i..])
    ensures last.Some? ==> KeyLess(last.value, s[i].key)
  {
    assert s[i..][0] == s[i];
  }

  method TakeOldEntry(oi: BucketInputIterator, ni: BucketInputIterator, out: BucketOutputIterator, c: Change,
                      sis: seq<BucketInputIterator>,
                      ghost older: Bucket, ghost newer: Bucket, ghost s: Setting, ghost p: Progress)
      returns (ghost p': Progress)
    requires Iterating(oi, ni, out, sis, older, newer, s, p) && s.Legal(c)
    requires p.i < |older.changes| && c == older.changes[p.i]
    requires p.j == |newer.changes| || KeyLess(c.key, newer.changes[p.j].key)
    modifies oi, ni, out, sis
    ensures Iterating(oi, ni, out, sis, older, newer, s, p') && p'.i + p'.j == p.i + p.j + 1
  {
    NextIsAhead(p.last, older.changes, p.i);
    p' := Progress(p.i + 1, p.j, p.acc + Emitted(s, Some(c)), Some(c.key));
    assert OnTrack(s, older.changes, newer.changes, p') by {
      TakeOld(s, older.changes, newer.changes, p);
    }
    EmitAndAdvance(oi, ni, out, c, sis, older, p.i, newer, p.j, s, p);
  }

  method AcceptOld(oi: BucketInputIterator, ni: BucketInputIterator, out: BucketOutputIterator,
                   sis: seq<BucketInputIterator>,
                   ghost older: Bucket, ghost newer: Bucket, ghost s: Setting, ghost p: Progress)
      returns (err: Option<MergeError>, ghost p': Progress)
    requires Iterating(oi, ni, out, sis, older, newer, s, p)
    requires p.i < |older.changes|
    requires p.j == |newer.changes| || KeyLess(older.changes[p.i].key, newer.changes[p.j].key)
    modifies oi, ni, out, sis
    ensures err.Some? ==> MergeChanges(s, older.changes, newer.changes) == Rejected(err.value)
    ensures err.None? ==> Iterating(oi, ni, out, sis, older, newer, s, p') && p'.i + p'.j == p.i + p.j + 1
  {
    var c := oi.entry.value;
    TakeOld(s, older.changes, newer.changes, p);
    if out.version < FIRST_PROTOCOL_SUPPORTING_INITENTRY_AND_METAENTRY && c.Init? {
      return Some(IllegalEntry), p;
    }
    p' := TakeOldEntry(oi, ni, out, c, sis, older, newer, s, p);
    return None, p';
  }

  method TakeNewEntry(oi: BucketInputIterator, ni: BucketInputIterator, out: BucketOutputIterator, c: Change,
                      sis: seq<BucketInputIterator>,
                      ghost older: Bucket, ghost newer: Bucket, ghost s: Setting, ghost p: Progress)
      returns (ghost p': Progress)
    requires Iterating(oi, ni, out, sis, older, newer, s, p) && s.Legal(c)
    requires p.j < |newer.changes| && c == newer.changes[p.j]
    requires p.i == |older.changes| || KeyLess(c.key, older.changes[p.i].key)
    modifies oi, ni, out, sis
    ensures Iterating(oi, ni, out, sis, older, newer, s, p') && p'.i + p'.j == p.i + p.j + 1
  {
    NextIsAhead(p.last, newer.changes, p.j);
    p' := Progress(p.i, p.j + 1, p.acc + Emitted(s, Some(c)), Some(c.key));
    assert OnTrack(s, older.changes, newer.changes, p') by {
      TakeNew(s, older.changes, newer.changes, p);
    }
    EmitAndAdvance(ni, oi, out, c, sis, newer, p.j, older, p.i, s, p);
  }

  method AcceptNew(oi: BucketInputIterator, ni: BucketInputIterator, out: BucketOutputIterator,
                   sis: seq<BucketInputIterator>,
                   ghost older: Bucket, ghost newer: Bucket, ghost s: Setting, ghost p: Progress)
      returns (err: Option<MergeError>, ghost p': Progress)
    requires Iterating(oi, ni, out, sis, older, newer, s, p)
    requires p.j < |newer.changes|
    requires p.i == |older.changes| || KeyLess(newer.changes[p.j].key, older.changes[p.i].key)
    modifies oi, ni, out, sis
    ensures err.Some? ==> MergeChanges(s, older.changes, newer.changes) == Rejected(err.value)
    ensures err.None? ==> Iterating(oi, ni, out, sis, older, newer, s, p') && p'.i + p'.j == p.i + p.j + 1
  {
    var c := ni.entry.value;
    TakeNew(s, older.changes, newer.changes, p);
    if out.version < FIRST_PROTOCOL_SUPPORTING_INITENTRY_AND_METAENTRY && c.Init? {
      return Some(IllegalEntry), p;
    }
    p' := TakeNewEntry(oi, ni, out, c, sis, older, newer, s, p);
    return None, p';
  }

  /** mergeCasesWithDefaultAcceptance: one side is exhausted or has the smaller key. */
  method MergeCasesWithDefaultAcceptance(oi: BucketInputIterator, ni: BucketInputIterator, out: BucketOutputIterator,
                                         sis: seq<BucketInputIterator>,
                                         ghost older: Bucket, ghost newer: Bucket, ghost s: Setting, ghost p: Progress)
      returns (handled: bool, err: Option<MergeError>, ghost p': Progress)
    requires Iterating(oi, ni, out, sis, older, newer, s, p)
    requires p.i < |older.changes| || p.j < |newer.changes|
    modifies oi, ni, out, sis
    ensures err.Some? ==> MergeChanges(s, older.changes, newer.changes) == Rejected(err.value)
    ensures err.None? ==> Iterating(oi, ni, out, sis, older, newer, s, p')
    ensures err.None? && handled ==> p'.i + p'.j == p.i + p.j + 1
    ensures !handled ==> err.None? && p' == p && p.i < |older.changes| && p.j < |newer.changes|
                         && older.changes[p.i].key == newer.changes[p.j].key
  {
    if ni.entry.None? || (oi.entry.Some? && KeyLess(oi.entry.value.key, ni.entry.value.key)) {
      handled := true;
      err, p' := AcceptOld(oi, ni, out, sis, older, newer, s, p);
    } else if oi.entry.None? || (ni.entry.Some? && KeyLess(ni.entry.value.key, oi.entry.value.key)) {
      handled := true;
      err, p' := AcceptNew(oi, ni, out, sis, older, newer, s, p);
    } else {
      KeyLessTotal(oi.entry.value.key, ni.entry.value.key);
      handled, err, p' := false, None, p;
    }
  }

  /** The merge table: what two entries for one key merge to, or whether they are malformed. */
  method MergeEntries(oldEntry: Change, newEntry: Change) returns (result: Option<Change>, malformed: bool)
    ensures malformed <==> Clash(Some(oldEntry), Some(newEntry))
    ensures !malformed ==> result == Compose(Some(oldEntry), Some(newEntry))
  {
    if newEntry.Init? {
      if !oldEntry.Dead? {
        return None, true;
      }
      return Some(Live(newEntry.key, newEntry.body)), false;
    } else if oldEntry.Init? {
      if newEntry.Live? {
        return Some(Init(newEntry.key, newEntry.body)), false;
      } else {
        return None, false;
      }
    } else {
      return Some(newEntry), false;
    }
  }

  /** Emits the result of merging two entries, if there is one. */
  method EmitResult(out: BucketOutputIterator, result: Option<Change>, k: LedgerKey,
                    sis: seq<BucketInputIterator>, ghost s: Setting, ghost p: Progress)
    requires OutputAt(out, sis, s, p) && (p.last.Some? ==> KeyLess(p.last.value, k))
    requires result.Some? ==> result.value.key == k && s.Legal(result.value)
    modifies out, sis
    ensures OutputAt(out, sis, s, p.(acc := p.acc + Emitted(s, result), last := Some(k)))
  {
    if result.Some? {
      EmitNext(out, result.value, sis, s, p);
    } else {
      Annihilated(out, sis, s, p, k);
    }
  }

  method EmitAndStepBoth(oi: BucketInputIterator, ni: BucketInputIterator, out: BucketOutputIterator,
                         result: Option<Change>, k: LedgerKey, sis: seq<BucketInputIterator>,
                         ghost older: Bucket, ghost newer: Bucket, ghost s: Setting, ghost p: Progress)
    requires oi != ni && oi !in sis && ni !in sis
    requires Delivers(oi, older, p.i) && p.i < |older.changes| && Delivers(ni, newer, p.j) && p.j < |newer.changes|
    requires OutputAt(out, sis, s, p) && (p.last.Some? ==> KeyLess(p.last.value, k))
    requires result.Some? ==> result.value.key == k && s.Legal(result.value)
    modifies oi, ni, out, sis
    ensures Delivers(oi, older, p.i + 1) && Delivers(ni, newer, p.j + 1)
    ensures OutputAt(out, sis, s, p.(acc := p.acc + Emitted(s, result), last := Some(k)))
  {
    ghost var i, j, p' := p.i, p.j, p.(acc := p.acc + Emitted(s, result), last := Some(k));
    EmitBefore(oi, ni, out, result, k, sis, older, newer, s, p, p');
    StepBoth(oi, ni, out, sis, older, i, newer, j, s, p');
  }

  /** Emitting leaves both iterators where they are. */
  method EmitBefore(ghost oi: BucketInputIterator, ghost ni: BucketInputIterator, out: BucketOutputIterator,
                    result: Option<Change>, k: LedgerKey, sis: seq<BucketInputIterator>,
                    ghost older: Bucket, ghost newer: Bucket, ghost s: Setting, ghost p: Progress, ghost p': Progress)
    requires oi !in sis && ni !in sis && Delivers(oi, older, p.i) && Delivers(ni, newer, p.j)
    requires OutputAt(out, sis, s, p) && (p.last.Some? ==> KeyLess(p.last.value, k))
    requires result.Some? ==> result.value.key == k && s.Legal(result.value)
    requires p' == p.(acc := p.acc + Emitted(s, result), last := Some(k))
    modifies out, sis
    ensures Delivers(oi, older, p.i) && Delivers(ni, newer, p.j) && OutputAt(out, sis, s, p')
  {
    EmitResult(out, result, k, sis, s, p);
  }

  /** Stepping over both entries leaves the output and the shadows where they are. */
  method StepBoth(oi: BucketInputIterator, ni: BucketInputIterator,
                  ghost out: BucketOutputIterator, ghost sis: seq<BucketInputIterator>,
                  ghost older: Bucket, ghost i: nat, ghost newer: Bucket, ghost j: nat, ghost s: Setting,
                  ghost p: Progress)
    requires oi != ni && Delivers(oi, older, i) && Delivers(ni, newer, j)
    requires i < |older.changes| && j < |newer.changes|
    requires oi !in sis && ni !in sis && OutputAt(out, sis, s, p)
    modifies oi, ni
    ensures Delivers(oi, older, i + 1) && Delivers(ni, newer, j + 1) && OutputAt(out, sis, s, p)
  {
    Advance(oi, older, i);
    Advance(ni, newer, j);
  }

  /** mergeCasesWithEqualKeys: two entries for one key. */
  method MergeCasesWithEqualKeys(oi: BucketInputIterator, ni: BucketInputIterator, out: BucketOutputIterator,
                                 sis: seq<BucketInputIterator>,
                                 ghost older: Bucket, ghost newer: Bucket, ghost s: Setting, ghost p: Progress)
      returns (err: Option<MergeError>, ghost p': Progress)
    requires Iterating(oi, ni, out, sis, older, newer, s, p)
    requires p.i < |older.changes| && p.j < |newer.changes| && older.changes[p.i].key == newer.changes[p.j].key
    modifies oi, ni, out, sis
    ensures err.Some? ==> MergeChanges(s, older.changes, newer.changes) == Rejected(err.value)
    ensures err.None? ==> Iterating(oi, ni, out, sis, older, newer, s, p') && p'.i + p'.j == p.i + p.j + 2
  {
    var oldEntry, newEntry := oi.entry.value, ni.entry.value;
    TakeBoth(s, older.changes, newer.changes, p);
    NextIsAhead(p.last, older.changes, p.i);
    p' := p;
    if out.version < FIRST_PROTOCOL_SUPPORTING_INITENTRY_AND_METAENTRY && (oldEntry.Init? || newEntry.Init?) {
      return Some(IllegalEntry), p;
    }
    var result, malformed := MergeEntries(oldEntry, newEntry);
    if malformed {
      return Some(Malformed), p;
    }
    EmitAndStepBoth(oi, ni, out, result, oldEntry.key, sis, older, newer, s, p);
    p' := Progress(p.i + 1, p.j + 1, p.acc + Emitted(s, result), Some(oldEntry.key));
    return None, p';
  }

  /** A creation and a deletion of the same key leave nothing. */
  lemma Annihilated(out: BucketOutputIterator, sis: seq<BucketInputIterator>, s: Setting, p: Progress, k: LedgerKey)
    requires OutputAt(out, sis, s, p) && (p.last.Some? ==> KeyLess(p.last.value, k))
    ensures OutputAt(out, sis, s, p.(acc := p.acc + [], last := Some(k)))
  {
    assert p.acc + [] == p.acc;
    assert ShadowsPassed(sis, s.shadows, k);
    ShadowsStayBehind(sis, s.shadows, k);
    if out.buf.Some? && out.buf.value.Entry? {
      var k' := out.buf.value.change.key;
      if k' != p.last.value {
        KeyLessTransitive(k', p.last.value, k);
      }
    }
  }

  lemma FreshShadowsBehind(sis: seq<BucketInputIterator>, shadows: seq<Bucket>)
    requires |sis| == |shadows| && (forall i, j :: 0 <= i < j < |sis| ==> sis[i] != sis[j])
    requires forall i :: 0 <= i < |sis| ==> Delivers(sis[i], shadows[i], 0)
    ensures ShadowsBehind(sis, shadows, None)
  {
    forall k: LedgerKey ensures ShadowsPassed(sis, shadows, k) {
    }
  }

  method OpenAll(shadows: seq<Bucket>) returns (sis: seq<BucketInputIterator>)
    requires forall i :: 0 <= i < |shadows| ==> WellFormed(shadows[i])
    ensures |sis| == |shadows| && (forall i :: 0 <= i < |sis| ==> fresh(sis[i]))
    ensures forall i, j :: 0 <= i < j < |sis| ==> sis[i] != sis[j]
    ensures forall i :: 0 <= i < |sis| ==> Delivers(sis[i], shadows[i], 0)
  {
    sis := [];
    for i := 0 to |shadows|
      invariant |sis| == i && (forall j :: 0 <= j < i ==> fresh(sis[j]))
      invariant forall j, k :: 0 <= j < k < i ==> sis[j] != sis[k]
      invariant forall j :: 0 <= j < i ==> Delivers(sis[j], shadows[j], 0)
    {
      var si := Open(shadows[i]);
      sis := sis + [si];
    }
  }

  /** calculateMergeProtocolVersion. */
  method CalculateMergeProtocolVersion(maxVersion: nat, oldVersion: nat, newVersion: nat, sis: seq<BucketInputIterator>,
                                       ghost older: Bucket, ghost newer: Bucket, ghost shadows: seq<Bucket>)
      returns (version: nat, err: Option<MergeError>)
    requires oldVersion == older.version && newVersion == newer.version
    requires |sis| == |shadows| && forall i :: 0 <= i < |sis| ==> sis[i].version == shadows[i].version
    ensures version == MergeVersion(older, newer, shadows)
    ensures err == if maxVersion < version then Some(VersionExceedsMax)
                   else if FIRST_PROTOCOL_SHADOWS_REMOVED <= version && shadows != [] then Some(ShadowsNotSupported)
                   else None
  {
    version := Max(oldVersion, newVersion);
    for i := 0 to |sis|
      invariant version == Max(Max(older.version, newer.version), ShadowVersion(shadows[..i]))
    {
      assert shadows[..i + 1][..i] == shadows[..i];
      var v := sis[i].version;
      if v < FIRST_PROTOCOL_SHADOWS_REMOVED {
        version := Max(v, version);
      }
    }
    assert shadows[..|sis|] == shadows;
    if version > maxVersion {
      return version, Some(VersionExceedsMax);
    }
    if FIRST_PROTOCOL_SHADOWS_REMOVED <= version && |sis| > 0 {
      return version, Some(ShadowsNotSupported);
    }
    return version, None;
  }

  /** One round of the loop. */
  method MergeStep(oi: BucketInputIterator, ni: BucketInputIterator, out: BucketOutputIterator,
                   sis: seq<BucketInputIterator>,
                   ghost older: Bucket, ghost newer: Bucket, ghost s: Setting, ghost p: Progress)
      returns (err: Option<MergeError>, ghost p': Progress)
    requires Iterating(oi, ni, out, sis, older, newer, s, p)
    requires oi.entry.Some? || ni.entry.Some?
    modifies oi, ni, out, sis
    ensures err.Some? ==> MergeChanges(s, older.changes, newer.changes) == Rejected(err.value)
    ensures err.None? ==> Iterating(oi, ni, out, sis, older, newer, s, p')
    ensures err.None? ==> p.i + p.j < p'.i + p'.j <= |older.changes| + |newer.changes|
  {
    var handled;
    handled, err, p' := MergeCasesWithDefaultAcceptance(oi, ni, out, sis, older, newer, s, p);
    if !handled {
      err, p' := MergeCasesWithEqualKeys(oi, ni, out, sis, older, newer, s, p);
    }
  }

  lemma MergeEnded(oi: BucketInputIterator, ni: BucketInputIterator, out: BucketOutputIterator,
                   sis: seq<BucketInputIterator>, older: Bucket, newer: Bucket, s: Setting, p: Progress)
    requires Iterating(oi, ni, out, sis, older, newer, s, p) && oi.entry.None? && ni.entry.None?
    ensures MergeChanges(s, older.changes, newer.changes) == Entries(p.acc)
  {
    assert older.changes[p.i..] == [] && newer.changes[p.j..] == [];
    assert p.acc + [] == p.acc;
  }

  /** The loop of Bucket::merge: ends with every entry of the merge put, or with what it throws. */
  method MergeLoop(oi: BucketInputIterator, ni: BucketInputIterator, out: BucketOutputIterator,
                   sis: seq<BucketInputIterator>, ghost older: Bucket, ghost newer: Bucket, ghost s: Setting)
      returns (err: Option<MergeError>)
    requires Iterating(oi, ni, out, sis, older, newer, s, Progress(0, 0, [], None))
    modifies oi, ni, out, sis
    ensures match MergeChanges(s, older.changes, newer.changes)
            case Rejected(e) => err == Some(e)
            case Entries(acc) => err.None? && out.Valid() && out.Contents() == MetaRecords(s.version) + AsRecords(acc)
  {
    ghost var p := Progress(0, 0, [], None);
    while oi.entry.Some? || ni.entry.Some?
      invariant Iterating(oi, ni, out, sis, older, newer, s, p)
      decreases |older.changes| + |newer.changes| - p.i - p.j
    {
      err, p := MergeStep(oi, ni, out, sis, older, newer, s, p);
      if err.Some? {
        return;
      }
    }
    MergeEnded(oi, ni, out, sis, older, newer, s, p);
    err := None;
  }

  lemma StartOnTrack(s: Setting, o: seq<Change>, n: seq<Change>)
    ensures OnTrack(s, o, n, Progress(0, 0, [], None))
  {
    assert o[0..] == o && n[0..] == n;
    var m := MergeChanges(s, o, n);
    if m.Entries? {
      assert [] + m.changes == m.changes;
    }
  }

  /** The part of Bucket::merge that writes, once the version is known. */
  method WriteMerge(oi: BucketInputIterator, ni: BucketInputIterator, sis: seq<BucketInputIterator>,
                    version: nat, keepDead: bool, ghost older: Bucket, ghost newer: Bucket, ghost shadows: seq<Bucket>)
      returns (r: FileResult)
    requires oi != ni && oi !in sis && ni !in sis
    requires Delivers(oi, older, 0) && Delivers(ni, newer, 0) && ShadowsBehind(sis, shadows, None)
    modifies oi, ni, sis
    ensures match MergeChanges(Setting(version, shadows, keepDead), older.changes, newer.changes)
            case Rejected(e) => r == Threw(e)
            case Entries(acc) => r == Written(MetaRecords(version) + AsRecords(acc))
  {
    var out := new BucketOutputIterator(keepDead, version);
    ghost var s := Setting(version, shadows, keepDead);
    StartOnTrack(s, older.changes, newer.changes);
    assert MetaRecords(version) + AsRecords([]) == MetaRecords(version);
    var err := MergeLoop(oi, ni, out, sis, older, newer, s);
    if err.Some? {
      return Threw(err.value);
    }
    var file := out.GetFile();
    return Written(file);
  }

  /** Bucket::merge: the single pass writes the file of the keywise merge, or throws what that throws. */
  method MergeBuckets(maxVersion: nat, older: Bucket, newer: Bucket, shadows: seq<Bucket>, keepDead: bool)
      returns (r: FileResult)
    requires WellFormed(older) && WellFormed(newer)
    requires forall i :: 0 <= i < |shadows| ==> WellFormed(shadows[i])
    ensures match Merge(maxVersion, older, newer, shadows, keepDead)
            case Merged(b) => r == Written(Records(b))
            case Failed(e) => r == Threw(e)
  {
    var oi := Open(older);
    var ni := Open(newer);
    var sis := OpenAll(shadows);
    var version, err := CalculateMergeProtocolVersion(maxVersion, oi.version, ni.version, sis, older, newer, shadows);
    if err.Some? {
      return Threw(err.value);
    }
    FreshShadowsBehind(sis, shadows);
    r := WriteMerge(oi, ni, sis, version, keepDead, older, newer, shadows);
  }
}
