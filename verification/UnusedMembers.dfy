/** Removing struct members that are never read, with the writes to them. */
module UnusedMembers {
  type M = nat

  datatype Access = Read(member: M) | Write(member: M, value: int)

  /** The members of all structs, those that are public outputs of a main component, and every access, resolved. */
  datatype Program = Program(members: set<M>, outputs: set<M>, accesses: seq<Access>)

  predicate IsRead(accesses: seq<Access>, m: M) { exists k :: 0 <= k < |accesses| && accesses[k] == Read(m) }

  // ---------- what accesses do ----------

  /** The members after the first `n` accesses. */
  ghost function Store(accesses: seq<Access>, store: M -> int, n: nat): M -> int
    requires n <= |accesses|
  {
    if n == 0 then store
    else
      var before, a := Store(accesses, store, n - 1), accesses[n - 1];
      (m: M) => if a.Write? && a.member == m then a.value else before(m)
  }

  /** The values read. */
  ghost function ReadValues(accesses: seq<Access>, store: M -> int, n: nat): seq<int>
    requires n <= |accesses|
  {
    if n == 0 then []
    else ReadValues(accesses, store, n - 1) + if accesses[n - 1].Read?
      then [Store(accesses, store, n - 1)(accesses[n - 1].member)] else []
  }

  function Without(accesses: seq<Access>, unused: set<M>, n: nat): seq<Access>
    requires n <= |accesses|
  {
    if n == 0 then []
    else
      var before, a := Without(accesses, unused, n - 1), accesses[n - 1];
      if a.Write? && a.member in unused then before else before + [a]
  }

  lemma {:induction false} StorePrefix(a: seq<Access>, b: seq<Access>, store: M -> int, n: nat)
    requires n <= |a| && a <= b
    ensures Store(b, store, n) == Store(a, store, n) && ReadValues(b, store, n) == ReadValues(a, store, n)
  {
    if n == 0 {
    } else {
      StorePrefix(a, b, store, n - 1);
    }
  }

  lemma LastAccess(before: seq<Access>, a: Access, store: M -> int)
    ensures var kept, n := before + [a], |before|;
            && Store(kept, store, |kept|) == ((m: M) => if a.Write? && a.member == m then a.value
              else Store(kept, store, n)(m))
            && ReadValues(kept, store, |kept|) == ReadValues(kept, store, n) + if a.Read?
              then [Store(kept, store, n)(a.member)] else []
  {}

  lemma WithoutKeeps(accesses: seq<Access>, unused: set<M>, n: nat)
    requires 0 < n <= |accesses| && !(accesses[n - 1].Write? && accesses[n - 1].member in unused)
    ensures Without(accesses, unused, n) == Without(accesses, unused, n - 1) + [accesses[n - 1]]
  {}

  /** Without the writes to members that are never read, every read gives what it gave, and the members kept end with
      what they held. */
  lemma {:induction false} SameReads(accesses: seq<Access>, unused: set<M>, store: M -> int, n: nat)
    requires n <= |accesses| && forall m :: m in unused ==> !IsRead(accesses, m)
    ensures var kept := Without(accesses, unused, n);
            && ReadValues(kept, store, |kept|) == ReadValues(accesses, store, n)
            && forall m :: m !in unused ==> Store(kept, store, |kept|)(m) == Store(accesses, store, n)(m)
  {
    if n == 0 {
    } else {
      SameReads(accesses, unused, store, n - 1);
      var before, a := Without(accesses, unused, n - 1), accesses[n - 1];
      if a.Read? { assert IsRead(accesses, a.member) && a.member !in unused; }
      if !(a.Write? && a.member in unused) {
        hide Without, IsRead;
        StorePrefix(before, before + [a], store, |before|);
        LastAccess(before, a, store);
        assert Without(accesses, unused, n) == before + [a] by { WithoutKeeps(accesses, unused, n); }
      }
    }
  }

  // ---------- the removal ----------

  method RemoveUnusedMembers(p: Program) returns (result: Program, unused: set<M>)
    ensures forall m :: m in unused <==> m in p.members && m !in p.outputs && !IsRead(p.accesses, m)
    ensures result == Program(p.members - unused, p.outputs, Without(p.accesses, unused, |p.accesses|))
    ensures forall k ::
        0 <= k < |result.accesses| ==> result.accesses[k] in p.accesses && result.accesses[k].member !in unused
  {
    unused := p.members - p.outputs;
    var k := 0;
    while k < |p.accesses|
      invariant k <= |p.accesses|
      invariant forall m :: m in unused <==> m in p.members && m !in p.outputs && !IsRead(p.accesses[..k], m)
    {
      var n := k + 1;
      assert p.accesses[..n] == p.accesses[..k] + [p.accesses[k]];
      assert forall m ::
          IsRead(p.accesses[..n], m) <==>
          IsRead(p.accesses[..k], m) || p.accesses[k] == Read(m) by { ReadNext(p.accesses, k); }
      if p.accesses[k].Read? { unused := unused - {p.accesses[k].member}; }
      k := n;
    }
    assert p.accesses[..k] == p.accesses;
    var accesses: seq<Access> := [];
    k := 0;
    while k < |p.accesses|
      invariant k <= |p.accesses| && accesses == Without(p.accesses, unused, k)
      invariant forall i :: 0 <= i < |accesses| ==> accesses[i] in p.accesses && accesses[i].member !in unused
    {
      var a := p.accesses[k];
      if a.Read? { assert IsRead(p.accesses, a.member); }
      if !(a.Write? && a.member in unused) { accesses := accesses + [a]; }
      k := k + 1;
    }
    result := Program(p.members - unused, p.outputs, accesses);
  }

  lemma ReadNext(accesses: seq<Access>, k: nat)
    requires k < |accesses|
    ensures forall m :: IsRead(accesses[..k + 1], m) <==> IsRead(accesses[..k], m) || accesses[k] == Read(m)
  {
    forall m | IsRead(accesses[..k], m) || accesses[k] == Read(m) ensures IsRead(accesses[..k + 1], m) {
      if IsRead(accesses[..k], m) {
        var i :| 0 <= i < k && accesses[..k][i] == Read(m);
        assert accesses[..k + 1][i] == Read(m);
      } else {
        assert accesses[..k + 1][k] == Read(m);
      }
    }
    forall m | IsRead(accesses[..k + 1], m) ensures IsRead(accesses[..k], m) || accesses[k] == Read(m) {
      var i :| 0 <= i < k + 1 && accesses[..k + 1][i] == Read(m);
      assert i < k ==> accesses[..k][i] == Read(m);
    }
  }
}
