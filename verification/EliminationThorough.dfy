/** What the elimination does find: repeated reads, values written back, and overwritten writes never survive it. */
module EliminationThorough {
  import opened MemoryIr
  import opened KnownFacts
  import opened ReadWriteFacts
  import opened EliminationCorrect
  import opened ReadWriteElim

  predicate IsRead(op: Op) { op.ReadMember? || op.ReadArray? }

  lemma {:induction false} GoodAt(base: nat, prog: seq<Op>, n: nat)
    requires WellFormed(base, prog) && n <= |prog|
    ensures Good(base, prog, n, Analysed(base, prog, n))
  {
    hide Good, After, WellFormed;
    if n == 0 {
      GoodStart(base, prog);
    } else {
      GoodAt(base, prog, n - 1);
      GoodStep(base, prog, n - 1, Analysed(base, prog, n - 1));
    }
  }

  // ---------- one operation, by its kind ----------

  lemma AfterIsRead(base: nat, prog: seq<Op>, i: nat, s: Facts)
    requires i < |prog| && IsRead(prog[i])
    ensures After(base, prog, i, s) == AfterRead(s, base + i, PlaceOf(base, prog, prog[i], s.repl))
  {
    hide AfterRead, PlaceOf;
  }

  lemma AfterIsNew(base: nat, prog: seq<Op>, i: nat, s: Facts)
    requires i < |prog| && prog[i].NewArray?
    ensures var s', elems := After(base, prog, i, s), TranslateAll(s.repl, prog[i].elems);
            s'.known == WithElements(s.known, base + i, elems, |elems|) && s'.repl == s.repl &&
              s'.redundant == s.redundant
  {
    hide WithElements;
  }

  /** Any other operation leaves the places alone, and replaces its own result at most. */
  lemma AfterIsOther(base: nat, prog: seq<Op>, i: nat, s: Facts)
    requires i < |prog| && !IsRead(prog[i]) && !prog[i].NewArray? && !prog[i].IsWrite()
    ensures var s' := After(base, prog, i, s);
        s'.known == s.known && s'.redundant == s.redundant && OneReplacement(s.repl, s'.repl, base + i)
  {
    hide AfterRead, AfterWrite, PlaceOf, AddressOf, Translate, OneReplacement;
    OneSame(s.repl, base + i);
    match prog[i] {
      case ReadGlobal(name) => if name in s.globals { OneMore(s.repl, base + i, s.globals[name]); }
      case Load(addr) =>
        var a := AddressOf(base, prog, Translate(s.repl, addr));
        if a in s.ram { OneMore(s.repl, base + i, s.ram[a]); }
      case _ =>
    }
  }

  lemma OneSame(repl: map<Id, Id>, v: Id)
    ensures OneReplacement(repl, repl, v)
  {}

  lemma OneMore(repl: map<Id, Id>, v: Id, w: Id)
    ensures OneReplacement(repl, repl[v := w], v)
  {}

  /** At most `v` is replaced from now on. */
  predicate OneReplacement(repl: map<Id, Id>, repl': map<Id, Id>, v: Id) {
    repl' == repl || (v in repl' && repl' == repl[v := repl'[v]])
  }

  lemma ReadTables(s: Facts, res: Id, p: Place)
    ensures var s' := AfterRead(s, res, p);
            && s'.redundant == s.redundant && p in s'.known
            && (forall q :: q in s.known ==> q in s'.known && s'.known[q] == s.known[q])
            && (forall q :: q in s'.known ==> q in s.known || q == p)
            && OneReplacement(s.repl, s'.repl, res)
  {}

  lemma WriteTables(s: Facts, i: nat, p: Place, val: Id)
    ensures var s' := AfterWrite(s, i, p, val); s'.repl == s.repl && forall x :: x in s.redundant ==> x in s'.redundant
  {
    hide Invalidated;
  }

  /** What is found stays found, and no operation replaces anything but its own result. */
  lemma AfterGrows(base: nat, prog: seq<Op>, i: nat, s: Facts)
    requires i < |prog|
    ensures var s' := After(base, prog, i, s);
            && (forall x :: x in s.redundant ==> x in s'.redundant) && OneReplacement(s.repl, s'.repl, base + i)
  {
    hide After, AfterRead, AfterWrite, WithElements, PlaceOf, TranslateAll, Translate;
    if IsRead(prog[i]) {
      AfterIsRead(base, prog, i, s);
      ReadTables(s, base + i, PlaceOf(base, prog, prog[i], s.repl));
    } else if prog[i].NewArray? {
      AfterIsNew(base, prog, i, s);
    } else if prog[i].IsWrite() {
      var p := PlaceOf(base, prog, prog[i], s.repl);
      AfterIsWrite(base, prog, i, s, p);
      WriteTables(s, i, p, Translate(s.repl, prog[i].val));
    } else {
      AfterIsOther(base, prog, i, s);
    }
  }

  // ---------- what is found stays found ----------

  lemma {:induction false} FoundStays(base: nat, prog: seq<Op>, i: nat, n: nat)
    requires i <= n <= |prog|
    ensures forall x :: x in Analysed(base, prog, i).redundant ==> x in Analysed(base, prog, n).redundant
    ensures forall v :: v in Analysed(base, prog, i).repl ==> v in Analysed(base, prog, n).repl
    decreases n
  {
    hide After;
    if i == n {
    } else {
      FoundStays(base, prog, i, n - 1);
      AfterGrows(base, prog, n - 1, Analysed(base, prog, n - 1));
    }
  }

  lemma RedundantErased(base: nat, prog: seq<Op>, code: seq<Option<Op>>, x: nat, n: nat)
    requires Exact(base, prog, Analysed(base, prog, |prog|), code) && n <= |prog| && x < |prog|
    requires x in Analysed(base, prog, n).redundant
    ensures code[x].None?
  {
    hide After;
    FoundStays(base, prog, n, |prog|);
  }

  lemma ReplacedErased(base: nat, prog: seq<Op>, code: seq<Option<Op>>, x: nat, n: nat)
    requires WellFormed(base, prog) && Exact(base, prog, Analysed(base, prog, |prog|), code) && n <= |prog|
    requires x < |prog|
    requires base + x in Analysed(base, prog, n).repl && prog[x].IsErasable()
    ensures code[x].None?
  {
    hide Good, After, Rewrite, WellFormed;
    var s := Analysed(base, prog, |prog|);
    GoodAt(base, prog, |prog|);
    FoundStays(base, prog, n, |prog|);
    forall i | 0 <= i < |code| && code[i].Some? ensures base + x !in Operands(code[i].value) {
      if base + x in Operands(code[i].value) { UsesTranslated(base, prog, s, i, base + x); }
    }
    assert !Used(code, base + x);
  }

  // ---------- a known place stays known ----------

  lemma KnownStep(base: nat, prog: seq<Op>, i: nat, s: Facts, p: Place)
    requires Good(base, prog, i, s) && i < |prog| && p in s.known && Spares(base, prog, prog[i], p)
    ensures var s' := After(base, prog, i, s); p in s'.known && s'.known[p].stored == s.known[p].stored
  {
    hide Good, After, AfterRead, WithElements, PlaceOf, TranslateAll, Spares;
    if prog[i].IsWrite() {
      KnownPastWrite(base, prog, i, s, p);
    } else if prog[i].NewArray? {
      EarlierArray(base, prog, i, s, p);
      AfterIsNew(base, prog, i, s);
      ElementsIn(s.known, base + i, TranslateAll(s.repl, prog[i].elems), |TranslateAll(s.repl, prog[i].elems)|);
    } else if IsRead(prog[i]) {
      AfterIsRead(base, prog, i, s);
      ReadTables(s, base + i, PlaceOf(base, prog, prog[i], s.repl));
    } else {
      AfterIsOther(base, prog, i, s);
    }
  }

  lemma EarlierArray(base: nat, prog: seq<Op>, i: nat, s: Facts, p: Place)
    requires Good(base, prog, i, s) && p in s.known
    ensures p.ElemPlace? ==> p.arr < base + i
  {
    hide WellFormed, ReplOk, StatefulOk, RedundantOk, ReadsOk;
    NodeAt(base, prog, i, s, p);
  }

  lemma KnownPastWrite(base: nat, prog: seq<Op>, i: nat, s: Facts, p: Place)
    requires Good(base, prog, i, s) && i < |prog| && prog[i].IsWrite() && p in s.known && Spares(base, prog, prog[i], p)
    ensures var s' := After(base, prog, i, s); p in s'.known && s'.known[p] == s.known[p]
  {
    ReplHere(base, prog, i, s);
    hide Good, After, AfterWrite;
    var q := Target(base, prog, prog[i]);
    TargetIsPlace(base, prog, i, s.repl);
    AfterIsWrite(base, prog, i, s, q);
    AfterWriteIs(s, i, q, Translate(s.repl, prog[i].val));
    SparedPlace(base, prog, i, p);
  }

  lemma ReplHere(base: nat, prog: seq<Op>, i: nat, s: Facts)
    requires Good(base, prog, i, s)
    ensures WellFormed(base, prog) && i <= |prog| && ReplOk(base, prog, i, s.repl)
  {}

  lemma SparedPlace(base: nat, prog: seq<Op>, i: nat, p: Place)
    requires WellFormed(base, prog) && i < |prog| && prog[i].IsWrite() && Spares(base, prog, prog[i], p)
    ensures var q := Target(base, prog, prog[i]); p != q && !(SameMember(q, p) && ReadWriteFacts.Resolved(p))
  {
    assert OpOk(base, prog, i);
  }

  lemma {:induction false} KnownStays(base: nat, prog: seq<Op>, i: nat, j: nat, p: Place)
    requires WellFormed(base, prog) && i <= j <= |prog| && p in Analysed(base, prog, i).known
    requires forall k :: i <= k < j ==> Spares(base, prog, prog[k], p)
    ensures p in Analysed(base, prog, j).known
    ensures Analysed(base, prog, j).known[p].stored == Analysed(base, prog, i).known[p].stored
    decreases j
  {
    hide Good, After, WellFormed;
    if i == j {
    } else {
      KnownStays(base, prog, i, j - 1, p);
      GoodAt(base, prog, j - 1);
      KnownStep(base, prog, j - 1, Analysed(base, prog, j - 1), p);
    }
  }

  lemma ReadKnownAfter(base: nat, prog: seq<Op>, i: nat, s: Facts)
    requires i < |prog| && IsRead(prog[i])
    ensures PlaceOf(base, prog, prog[i], s.repl) in After(base, prog, i, s).known
  {
    hide After, PlaceOf;
    AfterIsRead(base, prog, i, s);
  }

  // ---------- the three findings ----------

  /** A place read twice without a write in between that could change it: the second read is gone. */
  lemma RepeatedReadGone(base: nat, prog: seq<Op>, code: seq<Option<Op>>, i: nat, j: nat)
    requires WellFormed(base, prog) && Exact(base, prog, Analysed(base, prog, |prog|), code) && i < j < |prog|
    requires IsRead(prog[i]) && IsRead(prog[j])
    requires var p := PlaceOf(base, prog, prog[i], Analysed(base, prog, i).repl);
             p == PlaceOf(base, prog, prog[j], Analysed(base, prog, j).repl) &&
               forall k :: i < k < j ==> Spares(base, prog, prog[k], p)
    ensures code[j].None?
  {
    hide Good, WellFormed, Exact;
    var p := PlaceOf(base, prog, prog[i], Analysed(base, prog, i).repl);
    ReadKnownAfter(base, prog, i, Analysed(base, prog, i));
    KnownStays(base, prog, i + 1, j, p);
    ReplacedErased(base, prog, code, j, j + 1);
  }

  /** A read value written back to where it was read, with no write in between that could change it: the write is
      gone. */
  lemma WriteBackGone(base: nat, prog: seq<Op>, code: seq<Option<Op>>, i: nat, j: nat)
    requires WellFormed(base, prog) && Exact(base, prog, Analysed(base, prog, |prog|), code) && i < j < |prog|
    requires IsRead(prog[i]) && prog[j].IsWrite()
    requires var p := PlaceOf(base, prog, prog[i], Analysed(base, prog, i).repl);
             p == Target(base, prog, prog[j]) && prog[j].val == base + i &&
               forall k :: i < k < j ==> Spares(base, prog, prog[k], p)
    ensures code[j].None?
  {
    hide Good, WellFormed, Exact, After, AfterWrite;
    var p := Target(base, prog, prog[j]);
    var s := Analysed(base, prog, j);
    ReadKnownAfter(base, prog, i, Analysed(base, prog, i));
    KnownStays(base, prog, i + 1, j, p);
    ReadValueKnown(base, prog, i, j, p);
    GoodAt(base, prog, j);
    ReplHere(base, prog, j, s);
    TargetIsPlace(base, prog, j, s.repl);
    AfterIsWrite(base, prog, j, s, p);
    AfterWriteIs(s, j, p, Translate(s.repl, prog[j].val));
    RedundantErased(base, prog, code, j, j + 1);
  }

  /** Later on, the value read at `i` is looked up as what its place is known to hold. */
  lemma ReadValueKnown(base: nat, prog: seq<Op>, i: nat, j: nat, p: Place)
    requires WellFormed(base, prog) && i < j <= |prog| && IsRead(prog[i])
    requires p == PlaceOf(base, prog, prog[i], Analysed(base, prog, i).repl)
    requires p in Analysed(base, prog, j).known && p in Analysed(base, prog, i + 1).known
    requires Analysed(base, prog, j).known[p].stored == Analysed(base, prog, i + 1).known[p].stored
    ensures Translate(Analysed(base, prog, j).repl, base + i) == Analysed(base, prog, j).known[p].stored
  {
    hide Good, WellFormed, After, AfterRead, PlaceOf, ReplOk, Translate;
    var s := Analysed(base, prog, i);
    GoodAt(base, prog, i);
    ReplHere(base, prog, i, s);
    ReplBelow(base, prog, i, s.repl);
    AfterIsRead(base, prog, i, s);
    ReadValue(s, base + i, p);
    MappedStays(base, prog, i + 1, j, base + i);
  }

  lemma ReadValue(s: Facts, res: Id, p: Place)
    requires res !in s.repl
    ensures var s' := AfterRead(s, res, p); p in s'.known && Translate(s'.repl, res) == s'.known[p].stored
  {}

  /** Looking up a value defined before gives the same from then on. */
  lemma {:induction false} MappedStays(base: nat, prog: seq<Op>, i: nat, n: nat, v: Id)
    requires WellFormed(base, prog) && i <= n <= |prog| && v < base + i
    ensures Translate(Analysed(base, prog, n).repl, v) == Translate(Analysed(base, prog, i).repl, v)
    decreases n
  {
    hide WellFormed, After;
    if i == n {
    } else {
      MappedStays(base, prog, i, n - 1, v);
      AfterGrows(base, prog, n - 1, Analysed(base, prog, n - 1));
    }
  }

  /** A place written twice without another write to it, or a read through a row that may be the same, in between:
      one of the two writes is gone. Reads of the place itself in between do not keep the first write. */
  lemma OneWriteGone(base: nat, prog: seq<Op>, code: seq<Option<Op>>, i: nat, j: nat)
    requires WellFormed(base, prog) && Exact(base, prog, Analysed(base, prog, |prog|), code)
    requires i < j < |prog| && prog[i].IsWrite() && prog[j].IsWrite()
    requires Target(base, prog, prog[j]) == Target(base, prog, prog[i])
    requires forall k :: i < k < j ==> NoInterference(base, prog, prog[k], Target(base, prog, prog[i]))
    ensures code[i].None? || code[j].None?
  {
    hide Good, WellFormed, Exact, After, AfterWrite, NoInterference, Pending;
    var p := Target(base, prog, prog[i]);
    WriteStarts(base, prog, i);
    if i in Analysed(base, prog, i + 1).redundant {
      RedundantErased(base, prog, code, i, i + 1);
    } else {
      PendingStays(base, prog, i, j);
      WriteEnds(base, prog, i, j);
      if i in Analysed(base, prog, j + 1).redundant {
        RedundantErased(base, prog, code, i, j + 1);
      } else {
        RedundantErased(base, prog, code, j, j + 1);
      }
    }
  }

  predicate NoInterference(base: nat, prog: seq<Op>, op: Op, p: Place) {
    && (op.IsWrite() ==> Target(base, prog, op) != p)
    && (op.ReadMember? && op.off.Resolved? ==> p.ElemPlace? || p.comp != op.comp || p.member != op.member)
  }

  /** Write `x` is the last write of its place, and nothing known may alias it. */
  ghost predicate Pending(s: Facts, p: Place, x: nat) {
    p in s.known && s.known[p].lastWrite == Some(x) && MayAlias(s.known, p) == {}
  }

  lemma WriteStarts(base: nat, prog: seq<Op>, i: nat)
    requires WellFormed(base, prog) && i < |prog| && prog[i].IsWrite()
    ensures var s := Analysed(base, prog, i + 1); i in s.redundant || Pending(s, Target(base, prog, prog[i]), i)
  {
    hide Good, WellFormed, After, AfterWrite;
    var s, p := Analysed(base, prog, i), Target(base, prog, prog[i]);
    GoodAt(base, prog, i);
    ReplHere(base, prog, i, s);
    TargetIsPlace(base, prog, i, s.repl);
    AfterIsWrite(base, prog, i, s, p);
    AfterWriteIs(s, i, p, Translate(s.repl, prog[i].val));
  }

  lemma WriteEnds(base: nat, prog: seq<Op>, i: nat, j: nat)
    requires WellFormed(base, prog) && i < |prog| && j < |prog| && prog[i].IsWrite() && prog[j].IsWrite()
    requires Target(base, prog, prog[j]) == Target(base, prog, prog[i])
    requires Pending(Analysed(base, prog, j), Target(base, prog, prog[i]), i)
    ensures i in Analysed(base, prog, j + 1).redundant || j in Analysed(base, prog, j + 1).redundant
  {
    hide Good, WellFormed, After, AfterWrite;
    var s, p := Analysed(base, prog, j), Target(base, prog, prog[j]);
    GoodAt(base, prog, j);
    ReplHere(base, prog, j, s);
    TargetIsPlace(base, prog, j, s.repl);
    AfterIsWrite(base, prog, j, s, p);
    AfterWriteIs(s, j, p, Translate(s.repl, prog[j].val));
  }

  lemma {:induction false} PendingStays(base: nat, prog: seq<Op>, i: nat, j: nat)
    requires WellFormed(base, prog) && i < j <= |prog| && prog[i].IsWrite()
    requires Pending(Analysed(base, prog, i + 1), Target(base, prog, prog[i]), i)
    requires forall k :: i < k < j ==> NoInterference(base, prog, prog[k], Target(base, prog, prog[i]))
    ensures Pending(Analysed(base, prog, j), Target(base, prog, prog[i]), i)
    decreases j
  {
    hide Good, WellFormed, After, NoInterference, Pending;
    if i + 1 < j {
      PendingStays(base, prog, i, j - 1);
      GoodAt(base, prog, j - 1);
      PendingStep(base, prog, j - 1, Analysed(base, prog, j - 1), i);
    }
  }

  lemma PendingStep(base: nat, prog: seq<Op>, k: nat, s: Facts, i: nat)
    requires Good(base, prog, k, s) && k < |prog| && i < |prog| && prog[i].IsWrite()
    requires Pending(s, Target(base, prog, prog[i]), i)
    requires NoInterference(base, prog, prog[k], Target(base, prog, prog[i]))
    ensures Pending(After(base, prog, k, s), Target(base, prog, prog[i]), i)
  {
    hide Good, WellFormed, After, AfterRead, WithElements, PlaceOf, TranslateAll, MayAlias;
    ReplHere(base, prog, k, s);
    if prog[k].IsWrite() {
      PendingPastWrite(base, prog, k, s, i);
    } else if prog[k].NewArray? {
      PendingPastNew(base, prog, k, s, Target(base, prog, prog[i]), i);
    } else if IsRead(prog[k]) {
      PendingPastRead(base, prog, k, s, i);
    } else {
      AfterIsOther(base, prog, k, s);
    }
  }

  lemma PendingPastNew(base: nat, prog: seq<Op>, k: nat, s: Facts, p: Place, i: nat)
    requires Good(base, prog, k, s) && k < |prog| && prog[k].NewArray? && Pending(s, p, i)
    ensures Pending(After(base, prog, k, s), p, i)
  {
    hide Good, After, WithElements, TranslateAll;
    EarlierArray(base, prog, k, s, p);
    AfterIsNew(base, prog, k, s);
    var elems := TranslateAll(s.repl, prog[k].elems);
    ElementsIn(s.known, base + k, elems, |elems|);
    assert MayAlias(After(base, prog, k, s).known, p) == {};
  }

  lemma PendingPastRead(base: nat, prog: seq<Op>, k: nat, s: Facts, i: nat)
    requires WellFormed(base, prog) && k < |prog| && ReplOk(base, prog, k, s.repl) && i < |prog| && prog[i].IsWrite()
    requires Pending(s, Target(base, prog, prog[i]), i)
    requires IsRead(prog[k]) && NoInterference(base, prog, prog[k], Target(base, prog, prog[i]))
    ensures Pending(After(base, prog, k, s), Target(base, prog, prog[i]), i)
  {
    var p, q := Target(base, prog, prog[i]), PlaceOf(base, prog, prog[k], s.repl);
    NoAlias(base, prog, k, s, p);
    hide WellFormed, After, AfterRead, PlaceOf, Target, NoInterference;
    AfterIsRead(base, prog, k, s);
    ReadTables(s, base + k, q);
    assert MayAlias(After(base, prog, k, s).known, p) == {};
  }

  lemma NoAlias(base: nat, prog: seq<Op>, k: nat, s: Facts, p: Place)
    requires WellFormed(base, prog) && k < |prog| && ReplOk(base, prog, k, s.repl) && IsRead(prog[k])
    requires NoInterference(base, prog, prog[k], p)
    ensures var q := PlaceOf(base, prog, prog[k], s.repl); !(SameMember(p, q) && ReadWriteFacts.Resolved(q))
  {
    assert OpOk(base, prog, k);
  }

  lemma PendingPastWrite(base: nat, prog: seq<Op>, k: nat, s: Facts, i: nat)
    requires Good(base, prog, k, s) && k < |prog| && i < |prog| && prog[i].IsWrite() && prog[k].IsWrite()
    requires Pending(s, Target(base, prog, prog[i]), i)
    requires Target(base, prog, prog[k]) != Target(base, prog, prog[i])
    ensures Pending(After(base, prog, k, s), Target(base, prog, prog[i]), i)
  {
    hide Good, WellFormed, After, AfterWrite;
    var p, q := Target(base, prog, prog[i]), Target(base, prog, prog[k]);
    ReplHere(base, prog, k, s);
    TargetIsPlace(base, prog, k, s.repl);
    AfterIsWrite(base, prog, k, s, q);
    AfterWriteIs(s, k, q, Translate(s.repl, prog[k].val));
    assert forall r :: r in After(base, prog, k, s).known ==> r in s.known || r == q;
    assert MayAlias(After(base, prog, k, s).known, p) == {};
  }
}
