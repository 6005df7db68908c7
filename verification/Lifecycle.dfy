/** The lifecycle of one ledger key, and the merge table of src/bucket/Bucket.cpp read as
    composition of lifecycle steps: Init goes from absent to present, Live from present to
    present, Dead from present to absent. */
module Lifecycle {
  import opened LedgerCmp
  import opened Wrappers

  /** What the ledger says about one key. */
  datatype KeyState = Absent | Present(body: int)

  /** One lifecycle step. The outer None is a step taken from the wrong state. */
  function Step(s: Option<KeyState>, c: Option<Change>): (r: Option<KeyState>) {
    if s.None? || c.None? then s
    else match c.value
      case Init(_, b) => if s.value.Absent? then Some(Present(b)) else None
      case Live(_, b) => if s.value.Present? then Some(Present(b)) else None
      case Dead(_) => if s.value.Present? then Some(Absent) else None
  }

  /** The two combinations mergeCasesWithEqualKeys rejects as a malformed bucket. */
  predicate Clash(o: Option<Change>, n: Option<Change>) {
    o.Some? && n.Some? && n.value.Init? && !o.value.Dead?
  }

  /** The merge table. */
  function Compose(o: Option<Change>, n: Option<Change>): (r: Option<Change>)
    requires !Clash(o, n)
  {
    if n.None? then o
    else if o.None? then n
    else if n.value.Init? then Some(Live(n.value.key, n.value.body))
    else if o.value.Init? then
      if n.value.Live? then Some(Init(n.value.key, n.value.body)) else None
    else n
  }

  /** A reader cannot tell a pair of entries from the entry they merge to: where the two steps
      are legal one after the other, the merge does not throw and takes the same step. */
  lemma ComposeIsSequencing(s: Option<KeyState>, o: Option<Change>, n: Option<Change>)
    requires Step(Step(s, o), n).Some?
    ensures !Clash(o, n)
    ensures Step(s, Compose(o, n)) == Step(Step(s, o), n)
  {
  }

  /** Steps that can follow one another from some state. */
  predicate Compatible(s: KeyState, a: Option<Change>, b: Option<Change>, c: Option<Change>) {
    Step(Step(Step(Some(s), a), b), c).Some?
  }

  /** The merge table is associative on compatible entries for one key, kinds included. */
  lemma ComposeIsAssociative(s: KeyState, a: Option<Change>, b: Option<Change>, c: Option<Change>)
    requires Compatible(s, a, b, c)
    requires SameKey(a, b) && SameKey(b, c) && SameKey(a, c)
    ensures !Clash(a, b) && !Clash(Compose(a, b), c)
    ensures !Clash(b, c) && !Clash(a, Compose(b, c))
    ensures Compose(Compose(a, b), c) == Compose(a, Compose(b, c))
  {
  }

  predicate SameKey(a: Option<Change>, b: Option<Change>) {
    a.Some? && b.Some? ==> a.value.key == b.value.key
  }
}
