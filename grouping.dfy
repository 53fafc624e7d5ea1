/** `InvoiceProcessor.group_by_client`: invoices are grouped by their
    client number, lower-cased then stripped; each group becomes one
    `Client` whose number and address come from the group's first invoice
    and whose totals are the sums over the group; the clients are sorted
    by lower-cased number. */
module Grouping {
  import opened Text
  import opened Models

  /** `invoice.client_number.lower().strip()`, the dictionary key. */
  function GroupKey(inv: Invoice): string {
    Strip(Lower(inv.clientNumber))
  }

  /** `c.number.lower()`, the sort key. */
  function SortKey(c: Client): string {
    Lower(c.number)
  }

  /** The dictionary key a client's number falls under. */
  function ClientKey(c: Client): string {
    Strip(SortKey(c))
  }

  function KeysOf(s: seq<Invoice>): set<string> {
    set inv | inv in s :: GroupKey(inv)
  }

  /** The invoices with key `k`, in input order: the list the dictionary
      holds under `k`. */
  function Group(s: seq<Invoice>, k: string): seq<Invoice> {
    if s == [] then []
    else Group(s[..|s| - 1], k) + (if GroupKey(s[|s| - 1]) == k then [s[|s| - 1]] else [])
  }

  /** A group holds exactly the invoices of its key. */
  lemma {:induction false} GroupMembers(s: seq<Invoice>, k: string)
    ensures forall inv :: inv in Group(s, k) <==> inv in s && GroupKey(inv) == k
  {
    if s != [] {
      var init := s[..|s| - 1];
      GroupMembers(init, k);
      assert s == init + [s[|s| - 1]];
    }
  }

  /** Grouping keeps input order: the group of a concatenation is the
      group of the first part followed by that of the second. */
  lemma {:induction false} GroupAppend(p: seq<Invoice>, q: seq<Invoice>, k: string)
    ensures Group(p + q, k) == Group(p, k) + Group(q, k)
  {
    if q == [] {
      assert p + q == p;
    } else {
      var q' := q[..|q| - 1];
      assert (p + q)[..|p + q| - 1] == p + q';
      assert (p + q)[|p + q| - 1] == q[|q| - 1];
      GroupAppend(p, q', k);
    }
  }

  lemma GroupNonEmpty(s: seq<Invoice>, k: string)
    requires k in KeysOf(s)
    ensures Group(s, k) != []
  {
    var inv :| inv in s && GroupKey(inv) == k;
    GroupMembers(s, k);
    assert inv in Group(s, k);
  }

  /** The keys in order of first occurrence: the order in which the
      dictionary receives them. */
  function FirstKeys(s: seq<Invoice>): seq<string> {
    if s == [] then []
    else
      var p := FirstKeys(s[..|s| - 1]);
      var k := GroupKey(s[|s| - 1]);
      if k in p then p else p + [k]
  }

  /** Each key of `s` occurs once in `FirstKeys(s)`, and nothing else does. */
  lemma {:induction false} FirstKeysSpec(s: seq<Invoice>)
    ensures Distinct(FirstKeys(s))
    ensures forall k :: k in FirstKeys(s) <==> k in KeysOf(s)
  {
    if s != [] {
      var init := s[..|s| - 1];
      FirstKeysSpec(init);
      assert s == init + [s[|s| - 1]];
      assert KeysOf(s) == KeysOf(init) + {GroupKey(s[|s| - 1])};
    }
  }

  /** The `Client` built from one group: it holds the whole group, takes
      its number and address from the first invoice, and its totals are
      the sums over the group with TTC = HT + TVA. */
  function MakeClient(g: seq<Invoice>): (c: Client)
    requires g != []
    ensures c.invoices == g && ConsistentClient(c)
  {
    var ht := SumBy(g, AmountHt);
    var tva := SumBy(g, AmountTva);
    Client(g[0].clientNumber, g[0].clientAddress, g, ht, tva, ht + tva)
  }

  lemma MakeClientKey(s: seq<Invoice>, k: string)
    requires Group(s, k) != []
    ensures ClientKey(MakeClient(Group(s, k))) == k
  {
    GroupMembers(s, k);
    assert Group(s, k)[0] in Group(s, k);
  }

  /** One client per key of `ks`, in the order of `ks`. */
  function ClientsFor(s: seq<Invoice>, ks: seq<string>): (cs: seq<Client>)
    requires forall k :: k in ks ==> Group(s, k) != []
    ensures |cs| == |ks|
    ensures forall i :: 0 <= i < |ks| ==> cs[i] == MakeClient(Group(s, ks[i]))
  {
    if ks == [] then []
    else ClientsFor(s, ks[..|ks| - 1]) + [MakeClient(Group(s, ks[|ks| - 1]))]
  }

  /** Ordered by `key`, with Python's `<=` on strings. */
  predicate SortedBy<T>(cs: seq<T>, key: T -> string) {
    forall i, j :: 0 <= i < j < |cs| ==> Le(key(cs[i]), key(cs[j]))
  }

  /** Insertion before the first element whose key is not smaller. */
  function Insert<T>(c: T, cs: seq<T>, key: T -> string): (r: seq<T>)
    ensures multiset(r) == multiset(cs) + multiset{c}
  {
    if cs == [] then [c]
    else if Le(key(c), key(cs[0])) then [c] + cs
    else
      assert cs == [cs[0]] + cs[1..];
      [cs[0]] + Insert(c, cs[1..], key)
  }

  /** Prefixing an element no greater than any other keeps the order. */
  lemma ConsSorted<T>(h: T, rest: seq<T>, key: T -> string)
    requires SortedBy(rest, key)
    requires forall x :: x in rest ==> Le(key(h), key(x))
    ensures SortedBy([h] + rest, key)
  {
    var r := [h] + rest;
    forall i, j | 0 <= i < j < |r| ensures Le(key(r[i]), key(r[j])) {
      if i == 0 {
        assert r[j] in rest;
      } else {
        assert r[i] == rest[i - 1] && r[j] == rest[j - 1];
      }
    }
  }

  /** Insertion into an ordered sequence keeps it ordered. */
  lemma {:induction false} InsertSorted<T>(c: T, cs: seq<T>, key: T -> string)
    requires SortedBy(cs, key)
    ensures SortedBy(Insert(c, cs, key), key)
  {
    if cs == [] {
    } else if Le(key(c), key(cs[0])) {
      forall x | x in cs ensures Le(key(c), key(x)) {
        var j :| 0 <= j < |cs| && cs[j] == x;
        if j > 0 {
          LeTransitive(key(c), key(cs[0]), key(x));
        }
      }
      ConsSorted(c, cs, key);
    } else {
      LeTotal(key(c), key(cs[0]));
      var rest := Insert(c, cs[1..], key);
      InsertSorted(c, cs[1..], key);
      forall x | x in rest ensures Le(key(cs[0]), key(x)) {
        assert x in multiset(rest);
        if x != c {
          assert x in cs[1..];
        }
      }
      ConsSorted(cs[0], rest, key);
    }
  }

  /** Python's `list.sort(key=...)`, a stable sort; insertion sort stands for it. */
  function SortBy<T>(cs: seq<T>, key: T -> string): (r: seq<T>)
    ensures SortedBy(r, key)
    ensures multiset(r) == multiset(cs)
  {
    if cs == [] then []
    else
      assert cs == [cs[0]] + cs[1..];
      InsertSorted(cs[0], SortBy(cs[1..], key), key);
      Insert(cs[0], SortBy(cs[1..], key), key)
  }

  function ClientKeys(r: seq<Client>): seq<string> {
    seq(|r|, i requires 0 <= i < |r| => ClientKey(r[i]))
  }

  /** `c` is the client of the whole group of its own key. */
  predicate BuiltFromGroup(s: seq<Invoice>, c: Client) {
    Group(s, ClientKey(c)) != [] && c == MakeClient(Group(s, ClientKey(c)))
  }

  /** The result `group_by_client` promises for `s`: clients strictly
      ordered by lower-cased number; each one built from the whole group of
      its key; and every invoice's key has a client. */
  predicate IsClientList(s: seq<Invoice>, r: seq<Client>) {
    && (forall i, j :: 0 <= i < j < |r| ==>
          Le(SortKey(r[i]), SortKey(r[j])) && SortKey(r[i]) != SortKey(r[j]))
    && (forall i :: 0 <= i < |r| ==> BuiltFromGroup(s, r[i]))
    && (forall inv :: inv in s ==> GroupKey(inv) in ClientKeys(r))
  }

  /** The functional reference for `group_by_client`. */
  function GroupByClientSpec(s: seq<Invoice>): seq<Client> {
    FirstKeysNonEmpty(s);
    SortBy(ClientsFor(s, FirstKeys(s)), SortKey)
  }

  /** A multiset with no repeated element: every multiplicity is at most one. */
  lemma {:induction false} DistinctMultiplicity<T>(b: seq<T>, x: T)
    requires Distinct(b)
    ensures multiset(b)[x] <= 1
  {
    if b != [] {
      var init := b[..|b| - 1];
      var last := b[|b| - 1];
      assert b == init + [last];
      assert Distinct(init);
      assert last !in init;
      DistinctMultiplicity(init, x);
    }
  }

  lemma TwoPositions<T>(a: seq<T>, i: nat, j: nat)
    requires i < j < |a|
    ensures multiset(a)[a[i]] >= if a[i] == a[j] then 2 else 1
  {
    assert a == a[..j] + a[j..];
    assert a[i] in a[..j];
    assert a[j..][0] == a[j];
    assert a[j..] == [a[j]] + a[j + 1..];
  }

  /** A permutation of a sequence without repetitions has none either. */
  lemma DistinctPermutation<T>(a: seq<T>, b: seq<T>)
    requires multiset(a) == multiset(b) && Distinct(b)
    ensures Distinct(a)
  {
    forall i, j | 0 <= i < j < |a| ensures a[i] != a[j] {
      TwoPositions(a, i, j);
      DistinctMultiplicity(b, a[i]);
    }
  }

  lemma ClientsForKeys(s: seq<Invoice>, ks: seq<string>)
    requires forall k :: k in ks ==> Group(s, k) != []
    ensures forall i :: 0 <= i < |ks| ==> ClientKey(ClientsFor(s, ks)[i]) == ks[i]
    ensures forall c :: c in ClientsFor(s, ks) ==> BuiltFromGroup(s, c)
  {
    var cs := ClientsFor(s, ks);
    forall i | 0 <= i < |ks| ensures ClientKey(cs[i]) == ks[i] {
      MakeClientKey(s, ks[i]);
    }
  }

  /** Distinct keys give distinct clients. */
  lemma ClientsForDistinct(s: seq<Invoice>, ks: seq<string>)
    requires forall k :: k in ks ==> Group(s, k) != []
    requires Distinct(ks)
    ensures Distinct(ClientsFor(s, ks))
  {
    ClientsForKeys(s, ks);
  }

  /** Clients built from their own groups and pairwise different have
      different sort keys. */
  lemma DistinctClientsStrictlySorted(s: seq<Invoice>, r: seq<Client>)
    requires Distinct(r) && SortedBy(r, SortKey)
    requires forall c :: c in r ==> BuiltFromGroup(s, c)
    ensures forall i, j :: 0 <= i < j < |r| ==>
              Le(SortKey(r[i]), SortKey(r[j])) && SortKey(r[i]) != SortKey(r[j])
  {
    forall i, j | 0 <= i < j < |r|
      ensures SortKey(r[i]) != SortKey(r[j])
    {
      assert BuiltFromGroup(s, r[i]) && BuiltFromGroup(s, r[j]);
      assert ClientKey(r[i]) != ClientKey(r[j]);
    }
  }

  /** Every invoice's key is the key of some client of `r`. */
  lemma EveryKeyCovered(s: seq<Invoice>, cs: seq<Client>, r: seq<Client>)
    requires multiset(r) == multiset(cs)
    requires forall k :: k in KeysOf(s) ==> k in ClientKeys(cs)
    ensures forall inv :: inv in s ==> GroupKey(inv) in ClientKeys(r)
  {
    forall inv | inv in s ensures GroupKey(inv) in ClientKeys(r) {
      assert GroupKey(inv) in KeysOf(s);
      var p :| 0 <= p < |cs| && ClientKeys(cs)[p] == GroupKey(inv);
      assert cs[p] in multiset(r);
      var i :| 0 <= i < |r| && r[i] == cs[p];
      assert ClientKeys(r)[i] == GroupKey(inv);
    }
  }

  lemma PermutationBuiltFromGroup(s: seq<Invoice>, cs: seq<Client>, r: seq<Client>)
    requires multiset(r) == multiset(cs)
    requires forall c :: c in cs ==> BuiltFromGroup(s, c)
    ensures forall c :: c in r ==> BuiltFromGroup(s, c)
  {
    forall c | c in r ensures BuiltFromGroup(s, c) {
      assert c in multiset(cs);
    }
  }

  /** The clients in dictionary order: distinct, each built from its
      group, and one for every key of the input. */
  lemma ClientsInKeyOrder(s: seq<Invoice>)
    requires forall k :: k in FirstKeys(s) ==> Group(s, k) != []
    ensures Distinct(ClientsFor(s, FirstKeys(s)))
    ensures forall c :: c in ClientsFor(s, FirstKeys(s)) ==> BuiltFromGroup(s, c)
    ensures forall k :: k in KeysOf(s) ==> k in ClientKeys(ClientsFor(s, FirstKeys(s)))
  {
    var ks := FirstKeys(s);
    FirstKeysSpec(s);
    var cs := ClientsFor(s, ks);
    ClientsForKeys(s, ks);
    ClientsForDistinct(s, ks);
    forall k | k in KeysOf(s) ensures k in ClientKeys(cs) {
      var p :| 0 <= p < |ks| && ks[p] == k;
      assert ClientKeys(cs)[p] == k;
    }
  }

  /** The reference meets the promise. */
  lemma GroupByClientSpecIsClientList(s: seq<Invoice>)
    ensures IsClientList(s, GroupByClientSpec(s))
  {
    FirstKeysNonEmpty(s);
    ClientsInKeyOrder(s);
    SortedClientsAreClientList(s, ClientsFor(s, FirstKeys(s)), GroupByClientSpec(s));
  }

  /** Sorting distinct clients, each built from its group and covering
      every key, gives a client list. */
  lemma SortedClientsAreClientList(s: seq<Invoice>, cs: seq<Client>, r: seq<Client>)
    requires multiset(r) == multiset(cs) && SortedBy(r, SortKey)
    requires Distinct(cs)
    requires forall c :: c in cs ==> BuiltFromGroup(s, c)
    requires forall k :: k in KeysOf(s) ==> k in ClientKeys(cs)
    ensures IsClientList(s, r)
  {
    DistinctPermutation(r, cs);
    PermutationBuiltFromGroup(s, cs, r);
    DistinctClientsStrictlySorted(s, r);
    EveryKeyCovered(s, cs, r);
  }

  /** The dictionary `groups`, with insertion order `order`, holds exactly
      the groups of the invoices `s` seen so far. */
  ghost predicate GroupsMatch(s: seq<Invoice>, groups: map<string, seq<Invoice>>, order: seq<string>) {
    && (forall k :: k in groups <==> k in order)
    && (forall k :: k in groups ==> groups[k] == Group(s, k))
  }

  /** Opening an empty entry for a key not seen yet keeps the match. */
  lemma AddEmptyGroup(s: seq<Invoice>, groups: map<string, seq<Invoice>>, order: seq<string>, key: string)
    requires GroupsMatch(s, groups, order) && order == FirstKeys(s)
    requires key !in groups
    ensures GroupsMatch(s, groups[key := []], order + [key])
  {
    GroupOfUnseen(s, key);
  }

  /** Appending an invoice to the entry of its key matches one more invoice. */
  lemma AppendToGroup(s: seq<Invoice>, groups: map<string, seq<Invoice>>, order: seq<string>, inv: Invoice)
    requires GroupsMatch(s, groups, order)
    requires GroupKey(inv) in groups
    ensures GroupsMatch(s + [inv], groups[GroupKey(inv) := groups[GroupKey(inv)] + [inv]], order)
  {
    GroupSnoc(s, inv);
  }

  /** One more invoice extends the group of its own key only. */
  lemma GroupSnoc(p: seq<Invoice>, x: Invoice)
    ensures forall k :: Group(p + [x], k) == Group(p, k) + (if GroupKey(x) == k then [x] else [])
  {
    assert (p + [x])[..|p|] == p;
  }

  /** One more invoice adds its key at the end unless it was seen already. */
  lemma FirstKeysSnoc(p: seq<Invoice>, x: Invoice)
    ensures FirstKeys(p + [x]) == if GroupKey(x) in FirstKeys(p) then FirstKeys(p) else FirstKeys(p) + [GroupKey(x)]
  {
    assert (p + [x])[..|p|] == p;
  }

  lemma FirstKeysNonEmpty(s: seq<Invoice>)
    ensures forall k :: k in FirstKeys(s) ==> Group(s, k) != []
  {
    FirstKeysSpec(s);
    forall k | k in FirstKeys(s) ensures Group(s, k) != [] {
      GroupNonEmpty(s, k);
    }
  }

  /** A key not seen yet has an empty group. */
  lemma {:induction false} GroupOfUnseen(s: seq<Invoice>, k: string)
    requires k !in FirstKeys(s)
    ensures Group(s, k) == []
  {
    if s != [] {
      var init := s[..|s| - 1];
      assert GroupKey(s[|s| - 1]) in FirstKeys(s);
      assert forall j :: j in FirstKeys(init) ==> j in FirstKeys(s);
      GroupOfUnseen(init, k);
    }
  }

  lemma ClientsForSnoc(s: seq<Invoice>, ks: seq<string>, j: nat)
    requires j < |ks|
    requires forall k :: k in ks ==> Group(s, k) != []
    ensures ClientsFor(s, ks[..j + 1]) == ClientsFor(s, ks[..j]) + [MakeClient(Group(s, ks[j]))]
  {
    assert ks[..j + 1][..j] == ks[..j];
  }

  /** The invoices of all clients, client after client. */
  function Flatten(r: seq<Client>): seq<Invoice> {
    if r == [] then [] else Flatten(r[..|r| - 1]) + r[|r| - 1].invoices
  }

  /** The groups of the keys `ks`, one after the other. */
  function GroupsOf(s: seq<Invoice>, ks: seq<string>): seq<Invoice> {
    if ks == [] then [] else GroupsOf(s, ks[..|ks| - 1]) + Group(s, ks[|ks| - 1])
  }

  function TotalHt(c: Client): int { c.totalHt }
  function TotalTva(c: Client): int { c.totalTva }
  function TotalTtc(c: Client): int { c.totalTtc }

  /** Sum of one client total over a list of clients. */
  function SumClients(r: seq<Client>, f: Client -> int): int {
    if r == [] then 0 else SumClients(r[..|r| - 1], f) + f(r[|r| - 1])
  }

  /** The grouping step for one more invoice: it lands in exactly one
      group when its key is among `ks`. */
  lemma {:induction false} GroupsOfSnoc(p: seq<Invoice>, x: Invoice, ks: seq<string>)
    requires Distinct(ks)
    ensures multiset(GroupsOf(p + [x], ks))
            == multiset(GroupsOf(p, ks)) + (if GroupKey(x) in ks then multiset{x} else multiset{})
  {
    if ks != [] {
      var init := ks[..|ks| - 1];
      var k := ks[|ks| - 1];
      assert Distinct(init);
      assert ks == init + [k];
      GroupsOfSnoc(p, x, init);
      GroupSnoc(p, x);
      assert GroupKey(x) in ks <==> GroupKey(x) in init || GroupKey(x) == k;
      assert !(GroupKey(x) in init && GroupKey(x) == k);
    }
  }

  /** Groups over distinct keys covering every invoice partition the input. */
  lemma {:induction false} GroupsPartition(s: seq<Invoice>, ks: seq<string>)
    requires Distinct(ks)
    requires forall inv :: inv in s ==> GroupKey(inv) in ks
    ensures multiset(GroupsOf(s, ks)) == multiset(s)
  {
    if s == [] {
      GroupsOfEmpty(ks);
    } else {
      var init := s[..|s| - 1];
      var x := s[|s| - 1];
      assert s == init + [x];
      assert forall inv :: inv in init ==> inv in s;
      GroupsPartition(init, ks);
      GroupsOfSnoc(init, x, ks);
    }
  }

  lemma {:induction false} GroupsOfEmpty(ks: seq<string>)
    ensures GroupsOf([], ks) == []
  {
    if ks != [] {
      GroupsOfEmpty(ks[..|ks| - 1]);
    }
  }

  /** The invoices of clients built from their groups are those groups. */
  lemma {:induction false} FlattenIsGroups(s: seq<Invoice>, r: seq<Client>)
    requires forall i :: 0 <= i < |r| ==> BuiltFromGroup(s, r[i])
    ensures Flatten(r) == GroupsOf(s, ClientKeys(r))
  {
    if r != [] {
      var init := r[..|r| - 1];
      FlattenIsGroups(s, init);
      assert ClientKeys(r)[..|r| - 1] == ClientKeys(init);
      assert BuiltFromGroup(s, r[|r| - 1]);
    }
  }

  /** The sum of one client total is the sum of the invoice amounts. */
  lemma {:induction false} SumClientsIsSumBy(r: seq<Client>, f: Client -> int, g: Invoice -> int)
    requires forall c :: c in r ==> f(c) == SumBy(c.invoices, g)
    ensures SumClients(r, f) == SumBy(Flatten(r), g)
  {
    if r != [] {
      var init := r[..|r| - 1];
      assert forall c :: c in init ==> c in r;
      SumClientsIsSumBy(init, f, g);
      assert r[|r| - 1] in r;
      SumByAppend(Flatten(init), r[|r| - 1].invoices, g);
    }
  }

  /** Every client in a client list is consistent, and their keys differ. */
  lemma ClientListWellFormed(s: seq<Invoice>, r: seq<Client>)
    requires IsClientList(s, r)
    ensures forall c :: c in r ==> ConsistentClient(c)
    ensures Distinct(ClientKeys(r))
  {
    forall c | c in r ensures ConsistentClient(c) {
      var i :| 0 <= i < |r| && r[i] == c;
      assert BuiltFromGroup(s, r[i]);
    }
    forall i, j | 0 <= i < j < |r| ensures ClientKeys(r)[i] != ClientKeys(r)[j] {
      assert BuiltFromGroup(s, r[i]) && BuiltFromGroup(s, r[j]);
      assert SortKey(r[i]) != SortKey(r[j]);
      assert r[i] != r[j];
    }
  }

  /** Every invoice lands in exactly one client: the clients' invoices
      are a rearrangement of the input, so nothing is lost or counted twice. */
  lemma ClientListPartition(s: seq<Invoice>, r: seq<Client>)
    requires IsClientList(s, r)
    ensures multiset(Flatten(r)) == multiset(s)
    ensures |Flatten(r)| == |s|
  {
    ClientListWellFormed(s, r);
    FlattenIsGroups(s, r);
    GroupsPartition(s, ClientKeys(r));
    assert |multiset(Flatten(r))| == |multiset(s)|;
  }

  /** The clients' totals add up to the totals over all invoices. */
  lemma ClientListTotals(s: seq<Invoice>, r: seq<Client>)
    requires IsClientList(s, r)
    ensures SumClients(r, TotalHt) == SumBy(s, AmountHt)
    ensures SumClients(r, TotalTva) == SumBy(s, AmountTva)
    ensures SumClients(r, TotalTtc) == SumBy(s, AmountHt) + SumBy(s, AmountTva)
  {
    ClientListWellFormed(s, r);
    ClientListPartition(s, r);
    SumClientsIsSumBy(r, TotalHt, AmountHt);
    SumClientsIsSumBy(r, TotalTva, AmountTva);
    SumByPermutation(Flatten(r), s, AmountHt);
    SumByPermutation(Flatten(r), s, AmountTva);
    SumClientsTtc(r);
  }

  lemma {:induction false} SumClientsTtc(r: seq<Client>)
    requires forall c :: c in r ==> ConsistentClient(c)
    ensures SumClients(r, TotalTtc) == SumClients(r, TotalHt) + SumClients(r, TotalTva)
  {
    if r != [] {
      var init := r[..|r| - 1];
      assert forall c :: c in init ==> c in r;
      SumClientsTtc(init);
      assert r[|r| - 1] in r;
    }
  }

  /** `group_by_client`: a dictionary of lists filled in one loop, one
      client appended per dictionary entry in a second, then the sort. */
  method GroupByClient(invoices: seq<Invoice>) returns (clients: seq<Client>)
    ensures clients == GroupByClientSpec(invoices)
    ensures IsClientList(invoices, clients)
  {
    var groups: map<string, seq<Invoice>> := map[];
    var order: seq<string> := [];  // the dictionary's insertion order
    var i := 0;
    while i < |invoices|
      invariant 0 <= i <= |invoices|
      invariant order == FirstKeys(invoices[..i])
      invariant GroupsMatch(invoices[..i], groups, order)
    {
      var inv := invoices[i];
      var key := GroupKey(inv);
      assert invoices[..i + 1] == invoices[..i] + [inv];
      FirstKeysSnoc(invoices[..i], inv);
      if key !in groups {
        AddEmptyGroup(invoices[..i], groups, order, key);
        groups := groups[key := []];
        order := order + [key];
      }
      AppendToGroup(invoices[..i], groups, order, inv);
      groups := groups[key := groups[key] + [inv]];
      i := i + 1;
    }
    assert invoices[..i] == invoices;
    FirstKeysNonEmpty(invoices);
    var built: seq<Client> := [];
    var j := 0;
    while j < |order|
      invariant 0 <= j <= |order|
      invariant built == ClientsFor(invoices, order[..j])
    {
      ClientsForSnoc(invoices, order, j);
      built := built + [MakeClient(groups[order[j]])];
      j := j + 1;
    }
    assert order[..j] == order;
    clients := SortBy(built, SortKey);  // clients.sort(key=lambda c: c.number.lower())
    GroupByClientSpecIsClientList(invoices);
  }
}
