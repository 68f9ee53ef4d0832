/** The order-preserving projections of the ledger in money.js: the type filter
    (`getFilteredTransactions`), the removal by id and the `find` of
    `deleteTransaction`. */
module Views {
  import opened Transactions

  /** The list filter: the `data-filter` value of the pressed button. */
  datatype Filter = All | OnlyKind(kind: Kind)

  /** `a` is `b` with some elements left out, the rest in their original order. */
  predicate IsSubsequence(a: seq<Transaction>, b: seq<Transaction>)
  {
    a == [] || (b != [] && ((a[0] == b[0] && IsSubsequence(a[1..], b[1..])) || IsSubsequence(a, b[1..])))
  }

  /** `transactions.filter(t => t.type === k)`. */
  function OfKind(s: seq<Transaction>, k: Kind): (r: seq<Transaction>)
    ensures |r| <= |s|
    ensures forall i :: 0 <= i < |r| ==> r[i].kind == k
    ensures forall t :: t in r ==> t in s
    ensures IsSubsequence(r, s)
  {
    if s == [] then []
    else if s[0].kind == k then [s[0]] + OfKind(s[1..], k)
    else OfKind(s[1..], k)
  }

  /** `getFilteredTransactions`: the ledger itself for 'all', otherwise the records of that type. */
  function View(s: seq<Transaction>, f: Filter): (r: seq<Transaction>)
    ensures f.All? ==> r == s
    ensures f.OnlyKind? ==> IsSubsequence(r, s) && forall i :: 0 <= i < |r| ==> r[i].kind == f.kind
  {
    if f.All? then s else OfKind(s, f.kind)
  }

  /** The filter keeps every record of its kind and no other, each as often as in the ledger. */
  lemma {:induction false} OfKindCounts(s: seq<Transaction>, k: Kind, t: Transaction)
    ensures multiset(OfKind(s, k))[t] == if t.kind == k then multiset(s)[t] else 0
  {
    if s != [] {
      OfKindCounts(s[1..], k, t);
      assert s == [s[0]] + s[1..];
    }
  }

  /** Each filter keeps every record it selects, as often as it occurs in the ledger, and no other record. */
  lemma ViewCounts(s: seq<Transaction>, f: Filter)
    ensures forall t :: multiset(View(s, f))[t] == if f.All? || t.kind == f.kind then multiset(s)[t] else 0
  {
    forall t ensures multiset(View(s, f))[t] == if f.All? || t.kind == f.kind then multiset(s)[t] else 0 {
      if f.OnlyKind? {
        OfKindCounts(s, f.kind, t);
      }
    }
  }

  /** Filtering twice by the same button gives what filtering once gives. */
  lemma {:induction false} ViewIdempotent(s: seq<Transaction>, f: Filter)
    ensures View(View(s, f), f) == View(s, f)
  {
    if f.OnlyKind? {
      OfKindOfKind(s, f.kind);
    }
  }

  lemma {:induction false} OfKindOfKind(s: seq<Transaction>, k: Kind)
    ensures OfKind(OfKind(s, k), k) == OfKind(s, k)
  {
    if s != [] {
      OfKindOfKind(s[1..], k);
    }
  }

  /** Every record is either income or expense: the two filtered lists together are as long as the ledger. */
  lemma {:induction false} KindsPartition(s: seq<Transaction>)
    ensures |OfKind(s, Income)| + |OfKind(s, Expense)| == |s|
  {
    if s != [] {
      KindsPartition(s[1..]);
    }
  }

  /** `transactions.filter(t => t.id !== id)`: every record with that id goes, the others stay in order. */
  function RemoveId(s: seq<Transaction>, id: int): (r: seq<Transaction>)
    ensures forall i :: 0 <= i < |r| ==> r[i].id != id
    ensures IsSubsequence(r, s)
    ensures (forall i :: 0 <= i < |s| ==> s[i].id != id) ==> r == s
  {
    if s == [] then []
    else if s[0].id != id then [s[0]] + RemoveId(s[1..], id)
    else RemoveId(s[1..], id)
  }

  /** How many records carry the id. */
  function CountId(s: seq<Transaction>, id: int): (n: nat)
    ensures n <= |s|
    ensures n == 0 <==> forall i :: 0 <= i < |s| ==> s[i].id != id
  {
    if s == [] then 0
    else (if s[0].id == id then 1 else 0) + CountId(s[1..], id)
  }

  /** `transactions.find(t => t.id === id)`: the first record with the id, if any. */
  function FindFirst(s: seq<Transaction>, id: int): (r: Option<Transaction>)
    ensures r.None? <==> forall i :: 0 <= i < |s| ==> s[i].id != id
    ensures r.Some? ==> exists i :: 0 <= i < |s| && s[i] == r.value && r.value.id == id
                                    && forall j :: 0 <= j < i ==> s[j].id != id
  {
    if s == [] then None
    else if s[0].id == id then Some(s[0])
    else
      var r := FindFirst(s[1..], id);
      assert r.Some? ==> exists i :: 1 <= i < |s| && s[i] == r.value && r.value.id == id
                                     && forall j :: 0 <= j < i ==> s[j].id != id by {
        if r.Some? {
          var i :| 0 <= i < |s| - 1 && s[1..][i] == r.value && r.value.id == id
                   && forall j :: 0 <= j < i ==> s[1..][j].id != id;
          assert forall j :: 0 <= j < i + 1 ==> s[j].id != id by {
            forall j | 0 <= j < i + 1 ensures s[j].id != id {
              if j > 0 { assert s[j] == s[1..][j - 1]; }
            }
          }
        }
      }
      r
  }

  /** Removing an id shortens the ledger by exactly the number of records that carry it,
      and keeps every other record as often as before. */
  lemma {:induction false} RemoveIdCounts(s: seq<Transaction>, id: int, t: Transaction)
    ensures |RemoveId(s, id)| == |s| - CountId(s, id)
    ensures multiset(RemoveId(s, id))[t] == if t.id == id then 0 else multiset(s)[t]
  {
    if s != [] {
      RemoveIdCounts(s[1..], id, t);
      assert s == [s[0]] + s[1..];
    }
  }
}
