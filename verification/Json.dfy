/** JSON values, and field elements as decimal strings. */
module Json {
  datatype Value =
    | Null
    | Bool(b: bool)
    | Int(n: int)
    | Str(s: string)
    | Array(items: seq<Value>)
    | Object(fields: seq<Field>)

  datatype Field = Field(key: string, value: Value)

  datatype Result<T> = Ok(value: T) | Err(error: string)

  // ---------- decimal text ----------

  function DigitChar(d: nat): char
    requires d < 10
  {
    '0' + d as char
  }

  predicate IsDigit(c: char) { '0' <= c <= '9' }

  function DigitOf(c: char): nat
    requires IsDigit(c)
  {
    (c - '0') as nat
  }

  predicate AllDigits(s: string) { s != "" && forall i :: 0 <= i < |s| ==> IsDigit(s[i]) }

  function Render(n: nat): (s: string)
    ensures AllDigits(s)
  {
    if n < 10 then [DigitChar(n)] else Render(n / 10) + [DigitChar(n % 10)]
  }

  function Digits(s: string): nat
    requires forall i :: 0 <= i < |s| ==> IsDigit(s[i])
  {
    if s == "" then 0 else Digits(s[..|s| - 1]) * 10 + DigitOf(s[|s| - 1])
  }

  predicate IsDecimal(s: string) { AllDigits(s) || (s != "" && s[0] == '-' && AllDigits(s[1..])) }

  function Decimal(s: string): int
    requires IsDecimal(s)
  {
    if AllDigits(s) then Digits(s) else 0 - Digits(s[1..])
  }

  lemma {:induction false} DigitsOfRender(n: nat)
    ensures Digits(Render(n)) == n
  {
    var s := Render(n);
    if n < 10 {
      assert s[..|s| - 1] == "";
    } else {
      DigitsOfRender(n / 10);
      assert s[..|s| - 1] == Render(n / 10);
    }
  }

  // ---------- field elements ----------

  function Reduce(n: int, p: nat): nat
    requires p > 0
  {
    n % p
  }

  lemma ReduceSmall(v: nat, p: nat)
    requires v < p
    ensures Reduce(v, p) == v
  {}

  /** A field element from an integer or a decimal string, reduced. */
  function ParseFelt(json: Value, p: nat): Result<nat>
    requires p > 0
  {
    match json
    case Int(n) => Ok(Reduce(n, p))
    case Str(s) => if IsDecimal(s) then Ok(Reduce(Decimal(s), p)) else Err("not a decimal string")
    case _ => Err("expected felt value as JSON integer or decimal string")
  }

  lemma FeltBelow(json: Value, p: nat)
    requires p > 0 && ParseFelt(json, p).Ok?
    ensures ParseFelt(json, p).value < p
  {}

  function FeltToJson(v: nat): Value { Str(Render(v)) }

  lemma FeltRoundTrip(v: nat, p: nat)
    requires v < p
    ensures ParseFelt(FeltToJson(v), p) == Ok(v)
  {
    hide Reduce;
    DigitsOfRender(v);
    ReduceSmall(v, p);
  }

  // ---------- which number that is ----------

  /** `d` times the `n`th power of ten. */
  ghost function Worth(d: nat, n: nat): nat { if n == 0 then d else 10 * Worth(d, n - 1) }

  /** The digits from position `i` on, each times the power of ten of its place. */
  ghost function Places(s: string, i: nat): nat
    requires i <= |s| && forall k :: 0 <= k < |s| ==> IsDigit(s[k])
    decreases |s| - i
  {
    if i == |s| then 0 else Worth(DigitOf(s[i]), |s| - 1 - i) + Places(s, i + 1)
  }

  /** An integer, or digits with or without a minus sign. */
  ghost predicate IsNumber(json: Value) {
    json.Int? || (json.Str? && json.s != "" &&
      (AllDigits(json.s) || (json.s[0] == '-' && AllDigits(json.s[1..]))))
  }

  /** The number a JSON value stands for. */
  ghost function NumberOf(json: Value): int
    requires IsNumber(json)
  {
    if json.Int? then json.n
    else if AllDigits(json.s) then Places(json.s, 0)
    else
      var magnitude: int := Places(json.s[1..], 0);
      -magnitude
  }

  /** `v` is the canonical representative modulo `p` of the number. */
  ghost predicate StandsFor(json: Value, p: nat, v: nat) {
    IsNumber(json) && v < p && exists k: int :: NumberOf(json) == v + k * p
  }

  /** One more digit behind. */
  lemma {:induction false} PlacesAppend(s: string, t: string, c: char, i: nat)
    requires s == t + [c] && IsDigit(c) && i <= |t| && forall k :: 0 <= k < |t| ==> IsDigit(t[k])
    ensures Places(s, i) == 10 * Places(t, i) + DigitOf(c)
    decreases |t| - i
  {
    if i == |t| {
      assert Places(s, i + 1) == 0;
    } else {
      PlacesAppend(s, t, c, i + 1);
      assert s[i] == t[i] && |s| - 1 - i == (|t| - 1 - i) + 1;
    }
  }

  lemma {:induction false} DigitsArePlaces(s: string)
    requires forall k :: 0 <= k < |s| ==> IsDigit(s[k])
    ensures Digits(s) == Places(s, 0)
  {
    if s == "" {
    } else {
      var t, c := s[..|s| - 1], s[|s| - 1];
      DigitsArePlaces(t);
      PlacesAppend(s, t, c, 0);
    }
  }

  lemma ReduceStands(n: int, p: nat)
    requires p > 0
    ensures Reduce(n, p) < p && exists k: int :: n == Reduce(n, p) + k * p
  {
    var k := n / p;
    assert n == Reduce(n, p) + k * p;
  }

  /** A number is accepted and nothing else; what is read is its canonical representative. */
  lemma FeltStands(json: Value, p: nat)
    requires p > 0
    ensures ParseFelt(json, p).Ok? <==> IsNumber(json)
    ensures ParseFelt(json, p).Ok? ==> StandsFor(json, p, ParseFelt(json, p).value)
  {
    hide Digits, Places, Reduce;
    if json.Str? && IsDecimal(json.s) {
      if AllDigits(json.s) { DigitsArePlaces(json.s); } else { DigitsArePlaces(json.s[1..]); }
      ReduceStands(Decimal(json.s), p);
    } else if json.Int? {
      ReduceStands(json.n, p);
    }
  }
}
