/** The identity order of ledger keys and bucket entries (src/bucket/LedgerCmp.h).

    Account ids, assets, pool ids and balance ids are fixed-width opaque values; they are
    represented by the number they denote in big-endian order, which has the same order.
    Data names are variable-length and are compared lexicographically. */
module LedgerCmp {

  datatype LedgerKey =
    | Account(accountID: nat)
    | TrustLine(accountID: nat, asset: nat)
    | Offer(sellerID: nat, offerID: int)
    | Data(accountID: nat, dataName: string)
    | ClaimableBalance(balanceID: nat)
    | LiquidityPool(poolID: nat)

  /** What a bucket says about one key: created, updated or deleted. */
  datatype Change =
    | Init(key: LedgerKey, body: int)
    | Live(key: LedgerKey, body: int)
    | Dead(key: LedgerKey)

  /** One record of a bucket file. */
  datatype BucketEntry = Meta(version: nat) | Entry(change: Change)

  function EntryType(k: LedgerKey): int {
    match k
    case Account(_) => 0
    case TrustLine(_, _) => 1
    case Offer(_, _) => 2
    case Data(_, _) => 3
    case ClaimableBalance(_) => 4
    case LiquidityPool(_) => 5
  }

  predicate StringLess(a: string, b: string) {
    if b == [] then false
    else if a == [] then true
    else if a[0] != b[0] then a[0] < b[0]
    else StringLess(a[1..], b[1..])
  }

  /** LedgerEntryIdCmp: type first, then the identifying fields of that type. */
  predicate KeyLess(a: LedgerKey, b: LedgerKey) {
    if EntryType(a) != EntryType(b) then EntryType(a) < EntryType(b)
    else match a
      case Account(id) => id < b.accountID
      case TrustLine(id, asset) => id < b.accountID || (id == b.accountID && asset < b.asset)
      case Offer(id, offer) => id < b.sellerID || (id == b.sellerID && offer < b.offerID)
      case Data(id, name) => id < b.accountID || (id == b.accountID && StringLess(name, b.dataName))
      case ClaimableBalance(id) => id < b.balanceID
      case LiquidityPool(id) => id < b.poolID
  }

  /** BucketEntryIdCmp: the metadata record sorts below every other record. */
  predicate EntryLess(a: BucketEntry, b: BucketEntry) {
    if a.Meta? || b.Meta? then a.Meta? && b.Entry?
    else KeyLess(a.change.key, b.change.key)
  }

  lemma {:induction false} StringLessTotal(a: string, b: string)
    ensures (StringLess(a, b) && a != b && !StringLess(b, a))
         || (!StringLess(a, b) && a == b && !StringLess(b, a))
         || (!StringLess(a, b) && a != b && StringLess(b, a))
  {
    if a != [] && b != [] && a[0] == b[0] {
      StringLessTotal(a[1..], b[1..]);
      assert a == [a[0]] + a[1..] && b == [b[0]] + b[1..];
    }
  }

  lemma {:induction false} StringLessTransitive(a: string, b: string, c: string)
    requires StringLess(a, b) && StringLess(b, c)
    ensures StringLess(a, c)
  {
    if a != [] && a[0] == b[0] && b[0] == c[0] {
      StringLessTransitive(a[1..], b[1..], c[1..]);
    }
  }

  /** Exactly one of "less", "the same key" and "greater" holds. */
  lemma KeyLessTotal(a: LedgerKey, b: LedgerKey)
    ensures KeyLess(a, b) ==> a != b && !KeyLess(b, a)
    ensures a != b && !KeyLess(b, a) ==> KeyLess(a, b)
    ensures a == b ==> !KeyLess(a, b) && !KeyLess(b, a)
  {
    if a.Data? && b.Data? {
      StringLessTotal(a.dataName, b.dataName);
    }
  }

  lemma KeyLessTransitive(a: LedgerKey, b: LedgerKey, c: LedgerKey)
    requires KeyLess(a, b) && KeyLess(b, c)
    ensures KeyLess(a, c)
  {
    if a.Data? && b.Data? && c.Data?
       && a.accountID == b.accountID && b.accountID == c.accountID {
      StringLessTransitive(a.dataName, b.dataName, c.dataName);
    }
  }

  /** The record order is a strict total order up to identity: two records that do not compare
      either way are both metadata or carry the same key. */
  lemma EntryLessIsStrictTotalOrder(a: BucketEntry, b: BucketEntry, c: BucketEntry)
    ensures EntryLess(a, b) ==> !EntryLess(b, a)
    ensures EntryLess(a, b) && EntryLess(b, c) ==> EntryLess(a, c)
    ensures !EntryLess(a, b) && !EntryLess(b, a) <==>
            (a.Meta? && b.Meta?) || (a.Entry? && b.Entry? && a.change.key == b.change.key)
  {
    if a.Entry? && b.Entry? {
      KeyLessTotal(a.change.key, b.change.key);
      if c.Entry? && EntryLess(a, b) && EntryLess(b, c) {
        KeyLessTransitive(a.change.key, b.change.key, c.change.key);
      }
    }
  }
}
