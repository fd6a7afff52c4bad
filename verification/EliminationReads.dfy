/** Which reads the elimination replaces, and by what: reads of what was read, written or put into a new array before,
    of members and array elements, of globals, and of RAM. */
module EliminationReads {
  import opened MemoryIr
  import opened KnownFacts
  import opened ReadWriteFacts
  import opened ReadWriteElim
  import opened EliminationThorough

  /** The read at `j` is gone, and its value replaced by `x`, or by what replaces `x`. */
  ghost predicate ReplacedBy(base: nat, prog: seq<Op>, code: seq<Option<Op>>, j: nat, x: Id)
    requires j < |prog| == |code|
  {
    var repl := Analysed(base, prog, |prog|).repl;
    code[j].None? && base + j in repl && repl[base + j] == Translate(repl, x)
  }

  lemma FoundReplaced(base: nat, prog: seq<Op>, code: seq<Option<Op>>, i: nat, j: nat, x: Id)
    requires WellFormed(base, prog) && Exact(base, prog, Analysed(base, prog, |prog|), code) && i <= j < |prog|
    requires prog[j].IsErasable() && x < base + i && base + j in Analysed(base, prog, j + 1).repl
    requires Analysed(base, prog, j + 1).repl[base + j] == Translate(Analysed(base, prog, i).repl, x)
    ensures ReplacedBy(base, prog, code, j, x)
  {
    hide Good, WellFormed, Exact, After;
    FoundStays(base, prog, j + 1, |prog|);
    ReplacedErased(base, prog, code, j, j + 1);
    MappedStays(base, prog, i, |prog|, x);
    MappedStays(base, prog, j + 1, |prog|, base + j);
    assert |code| == |prog| by { CodeLength(base, prog, code); }
  }

  lemma CodeLength(base: nat, prog: seq<Op>, code: seq<Option<Op>>)
    requires Exact(base, prog, Analysed(base, prog, |prog|), code)
    ensures |code| == |prog|
  {
    hide WellFormed, After;
  }

  // ---------- members and elements ----------

  /** What is known of a place is what a read of it is replaced by, as long as nothing in between can write it. */
  lemma KnownReplaces(base: nat, prog: seq<Op>, code: seq<Option<Op>>, i: nat, j: nat, p: Place, x: Id)
    requires WellFormed(base, prog) && Exact(base, prog, Analysed(base, prog, |prog|), code) && i <= j < |prog|
    requires p in Analysed(base, prog, i).known && x < base + i
    requires Analysed(base, prog, i).known[p].stored == Translate(Analysed(base, prog, i).repl, x)
    requires IsRead(prog[j]) && PlaceOf(base, prog, prog[j], Analysed(base, prog, j).repl) == p
    requires forall k :: i <= k < j ==> Spares(base, prog, prog[k], p)
    ensures ReplacedBy(base, prog, code, j, x)
  {
    hide Good, WellFormed, Exact, After, PlaceOf, Spares, Translate;
    KnownStays(base, prog, i, j, p);
    AfterIsRead(base, prog, j, Analysed(base, prog, j));
    FoundReplaced(base, prog, code, i, j, x);
  }

  /** A place that was written: a read of it is replaced by the written value. */
  lemma ReadOfWritten(base: nat, prog: seq<Op>, code: seq<Option<Op>>, i: nat, j: nat)
    requires WellFormed(base, prog) && Exact(base, prog, Analysed(base, prog, |prog|), code) && i < j < |prog|
    requires prog[i].IsWrite() && IsRead(prog[j])
    requires PlaceOf(base, prog, prog[j], Analysed(base, prog, j).repl) == Target(base, prog, prog[i])
    requires forall k :: i < k < j ==> Spares(base, prog, prog[k], Target(base, prog, prog[i]))
    ensures ReplacedBy(base, prog, code, j, prog[i].val)
  {
    hide Good, Exact, After, AfterWrite, Translate;
    var p, s := Target(base, prog, prog[i]), Analysed(base, prog, i);
    GoodAt(base, prog, i);
    ReplHere(base, prog, i, s);
    TargetIsPlace(base, prog, i, s.repl);
    AfterIsWrite(base, prog, i, s, p);
    AfterWriteIs(s, i, p, Translate(s.repl, prog[i].val));
    assert OpOk(base, prog, i) && prog[i].val in Operands(prog[i]);
    assert prog[i].val < base + i;
    KnownReplaces(base, prog, code, i + 1, j, p, prog[i].val);
  }

  /** A place that was read: a second read of it is replaced by the value of the first. */
  lemma ReadOfRead(base: nat, prog: seq<Op>, code: seq<Option<Op>>, i: nat, j: nat)
    requires WellFormed(base, prog) && Exact(base, prog, Analysed(base, prog, |prog|), code) && i < j < |prog|
    requires IsRead(prog[i]) && IsRead(prog[j])
    requires PlaceOf(base, prog, prog[j], Analysed(base, prog, j).repl) ==
        PlaceOf(base, prog, prog[i], Analysed(base, prog, i).repl)
    requires forall k :: i < k < j ==>
        Spares(base, prog, prog[k], PlaceOf(base, prog, prog[i], Analysed(base, prog, i).repl))
    ensures ReplacedBy(base, prog, code, j, base + i)
  {
    hide Good, WellFormed, Exact, After, PlaceOf, Spares, Translate;
    var p := PlaceOf(base, prog, prog[i], Analysed(base, prog, i).repl);
    ReadKnownAfter(base, prog, i, Analysed(base, prog, i));
    KnownStays(base, prog, i + 1, j, p);
    ReadValueKnown(base, prog, i, i + 1, p);
    KnownReplaces(base, prog, code, i + 1, j, p, base + i);
  }

  /** An element of a new array, at a constant index: a read of it is replaced by the value it was made with. */
  lemma ReadOfElement(base: nat, prog: seq<Op>, code: seq<Option<Op>>, i: nat, j: nat, n: nat)
    requires WellFormed(base, prog) && Exact(base, prog, Analysed(base, prog, |prog|), code) && i < j < |prog|
    requires prog[i].NewArray? && n < |prog[i].elems| && prog[j].ReadArray?
    requires PlaceOf(base, prog, prog[j], Analysed(base, prog, j).repl) == ElemPlace(base + i, n)
    requires forall k :: i < k < j ==> Spares(base, prog, prog[k], ElemPlace(base + i, n))
    ensures ReplacedBy(base, prog, code, j, prog[i].elems[n])
  {
    hide Good, Exact, After, Translate, Spares, WithElements;
    var s, elems := Analysed(base, prog, i), prog[i].elems;
    AfterIsNew(base, prog, i, s);
    ElementsIn(s.known, base + i, TranslateAll(s.repl, elems), |elems|);
    assert OpOk(base, prog, i) && elems[n] in Operands(prog[i]);
    assert elems[n] < base + i;
    KnownReplaces(base, prog, code, i + 1, j, ElemPlace(base + i, n), elems[n]);
  }

  // ---------- globals and RAM ----------

  /** Nothing here changes the global. */
  predicate SparesGlobal(op: Op, name: nat) { !op.Effect? && !(op.WriteGlobal? && op.name == name) }

  predicate SparesRam(op: Op) { !op.Effect? && !op.Store? }

  lemma {:induction false} GlobalStays(base: nat, prog: seq<Op>, i: nat, j: nat, name: nat)
    requires i <= j <= |prog| && name in Analysed(base, prog, i).globals
    requires forall k :: i <= k < j ==> SparesGlobal(prog[k], name)
    ensures name in Analysed(base, prog, j).globals
    ensures Analysed(base, prog, j).globals[name] == Analysed(base, prog, i).globals[name]
    decreases j
  {
    hide After;
    if i == j {
    } else {
      GlobalStays(base, prog, i, j - 1, name);
      GlobalStep(base, prog, j - 1, Analysed(base, prog, j - 1), name);
    }
  }

  lemma PlacesOnly(base: nat, prog: seq<Op>, i: nat, s: Facts)
    requires i < |prog| && (IsRead(prog[i]) || prog[i].IsWrite())
    ensures After(base, prog, i, s).globals == s.globals && After(base, prog, i, s).ram == s.ram
  {
    hide After, PlaceOf, Translate, AfterRead, AfterWrite;
    var p := PlaceOf(base, prog, prog[i], s.repl);
    if IsRead(prog[i]) {
      AfterIsRead(base, prog, i, s);
      ReadLeaves(s, base + i, p);
    } else {
      AfterIsWrite(base, prog, i, s, p);
      WriteLeaves(s, i, p, Translate(s.repl, prog[i].val));
    }
  }

  lemma ReadLeaves(s: Facts, res: Id, p: Place)
    ensures AfterRead(s, res, p).globals == s.globals && AfterRead(s, res, p).ram == s.ram
  {}

  lemma WriteLeaves(s: Facts, i: nat, p: Place, val: Id)
    ensures AfterWrite(s, i, p, val).globals == s.globals && AfterWrite(s, i, p, val).ram == s.ram
  {
    hide Invalidated;
  }

  lemma GlobalStep(base: nat, prog: seq<Op>, i: nat, s: Facts, name: nat)
    requires i < |prog| && name in s.globals && SparesGlobal(prog[i], name)
    ensures name in After(base, prog, i, s).globals && After(base, prog, i, s).globals[name] == s.globals[name]
  {
    hide PlaceOf, AddressOf, Translate, WithElements, TranslateAll, AfterRead, AfterWrite;
    if IsRead(prog[i]) || prog[i].IsWrite() { PlacesOnly(base, prog, i, s); }
  }

  lemma {:induction false} RamStays(base: nat, prog: seq<Op>, i: nat, j: nat, key: Address)
    requires i <= j <= |prog| && key in Analysed(base, prog, i).ram
    requires forall k :: i <= k < j ==> SparesRam(prog[k])
    ensures key in Analysed(base, prog, j).ram && Analysed(base, prog, j).ram[key] == Analysed(base, prog, i).ram[key]
    decreases j
  {
    hide After;
    if i == j {
    } else {
      RamStays(base, prog, i, j - 1, key);
      RamStep(base, prog, j - 1, Analysed(base, prog, j - 1), key);
    }
  }

  lemma RamStep(base: nat, prog: seq<Op>, i: nat, s: Facts, key: Address)
    requires i < |prog| && key in s.ram && SparesRam(prog[i])
    ensures key in After(base, prog, i, s).ram && After(base, prog, i, s).ram[key] == s.ram[key]
  {
    hide PlaceOf, AddressOf, Translate, WithElements, TranslateAll, AfterRead, AfterWrite;
    if IsRead(prog[i]) || prog[i].IsWrite() { PlacesOnly(base, prog, i, s); }
  }

  /** What the statement at `i` reads or writes. */
  function Source(base: nat, prog: seq<Op>, i: nat): Id
    requires i < |prog|
  {
    match prog[i]
    case WriteGlobal(_, val) => val
    case Store(_, val) => val
    case _ => base + i
  }

  lemma SourceFits(base: nat, prog: seq<Op>, i: nat)
    requires WellFormed(base, prog) && i < |prog|
    ensures Source(base, prog, i) < base + i + 1
  {
    assert OpOk(base, prog, i);
    if prog[i].WriteGlobal? || prog[i].Store? { assert prog[i].val in Operands(prog[i]); }
  }

  /** A global that was read or written: the next read is replaced by that value, unless an unknown effect or a write of
      the global comes in between. */
  lemma GlobalReread(base: nat, prog: seq<Op>, code: seq<Option<Op>>, i: nat, j: nat, name: nat)
    requires WellFormed(base, prog) && Exact(base, prog, Analysed(base, prog, |prog|), code) && i < j < |prog|
    requires (prog[i].ReadGlobal? || prog[i].WriteGlobal?) && prog[i].name == name && prog[j] == ReadGlobal(name)
    requires forall k :: i < k < j ==> SparesGlobal(prog[k], name)
    ensures ReplacedBy(base, prog, code, j, Source(base, prog, i))
  {
    hide Good, WellFormed, Exact;
    var s := Analysed(base, prog, i);
    GoodAt(base, prog, i);
    ReplHere(base, prog, i, s);
    ReplBelow(base, prog, i, s.repl);
    SourceFits(base, prog, i);
    assert name in After(base, prog, i, s).globals;
    GlobalStays(base, prog, i + 1, j, name);
    assert After(base, prog, i, s).globals[name] == Translate(After(base, prog, i, s).repl, Source(base, prog, i));
    FoundReplaced(base, prog, code, i + 1, j, Source(base, prog, i));
  }

  /** RAM at an address that was loaded or stored: the next load is replaced by that value, unless an unknown effect or
      any store comes in between. */
  lemma RamReread(base: nat, prog: seq<Op>, code: seq<Option<Op>>, i: nat, j: nat)
    requires WellFormed(base, prog) && Exact(base, prog, Analysed(base, prog, |prog|), code) && i < j < |prog|
    requires (prog[i].Load? || prog[i].Store?) && prog[j].Load?
    requires AddressOf(base, prog, Translate(Analysed(base, prog, i).repl, prog[i].addr)) ==
        AddressOf(base, prog, Translate(Analysed(base, prog, j).repl, prog[j].addr))
    requires forall k :: i < k < j ==> SparesRam(prog[k])
    ensures ReplacedBy(base, prog, code, j, Source(base, prog, i))
  {
    hide Good, WellFormed, Exact, After, Translate;
    var s := Analysed(base, prog, i);
    var key := AddressOf(base, prog, Translate(s.repl, prog[i].addr));
    GoodAt(base, prog, i);
    ReplHere(base, prog, i, s);
    ReplBelow(base, prog, i, s.repl);
    SourceFits(base, prog, i);
    RamKnown(base, prog, i, s);
    RamStays(base, prog, i + 1, j, key);
    LoadReplaced(base, prog, j, Analysed(base, prog, j));
    FoundReplaced(base, prog, code, i + 1, j, Source(base, prog, i));
  }

  lemma LoadReplaced(base: nat, prog: seq<Op>, j: nat, s: Facts)
    requires j < |prog| && prog[j].Load?
    ensures var key, s' := AddressOf(base, prog, Translate(s.repl, prog[j].addr)), After(base, prog, j, s);
        key in s.ram ==> base + j in s'.repl && s'.repl[base + j] == s.ram[key]
  {}

  lemma RamKnown(base: nat, prog: seq<Op>, i: nat, s: Facts)
    requires i < |prog| && (prog[i].Load? || prog[i].Store?) && base + i !in s.repl
    ensures var key, s' := AddressOf(base, prog, Translate(s.repl, prog[i].addr)), After(base, prog, i, s);
        key in s'.ram && s'.ram[key] == Translate(s'.repl, Source(base, prog, i))
  {}
}
