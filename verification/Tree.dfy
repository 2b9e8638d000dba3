/** JSON documents as the store represents them, and the JSON value that a
    representation stands for. */
module Trees {
  import opened ByteCodec
  import opened Names

  /** The scalars of the binary format. An Int is a string too: one whose text is
      the decimal form of a 64-bit integer, stored as that integer. */
  datatype Scalar =
    | Null
    | False
    | True
    | Str(text: Bytes)
    | Int(i: int)
    | Num(digits: Bytes)
    | Blob(data: Bytes)

  datatype Tree =
    | Leaf(s: Scalar)
    | Arr(elems: seq<Tree>)
    | Obj(names: seq<Bytes>, vals: seq<Tree>)
  {
    /** The direct children, in order. */
    function Kids(): (r: seq<Tree>)
      ensures forall i | 0 <= i < |r| :: r[i] < this
    {
      match this
      case Leaf(_) => []
      case Arr(elems) => elems
      case Obj(_, vals) => vals
    }
  }

  // The type tags of the format.
  const T_NIL: Byte := 1
  const T_FALSE: Byte := 2
  const T_TRUE: Byte := 3
  const T_STRING: Byte := 4
  const T_STRING_INT: Byte := 5
  const T_NUMBER: Byte := 6
  const T_ARRAY: Byte := 7
  const T_OBJECT_FULL: Byte := 8
  const T_OBJECT_THIN: Byte := 9
  const T_OBJECT_PATCH: Byte := 10
  const T_BINARY_FULL: Byte := 11

  function Tag(s: Scalar): Byte {
    match s
    case Null => T_NIL
    case False => T_FALSE
    case True => T_TRUE
    case Str(_) => T_STRING
    case Int(_) => T_STRING_INT
    case Num(_) => T_NUMBER
    case Blob(_) => T_BINARY_FULL
  }

  /** null, false and true have no bytes of their own when they are nested. */
  predicate Embeds(s: Scalar) { s.Null? || s.False? || s.True? }

  /** What every stored document satisfies: sorted names, one value a name, and
      sizes that fit the format. */
  ghost predicate Proper(t: Tree) {
    match t
    case Leaf(Str(text)) => |text| < TWO_31
    case Leaf(Num(digits)) => |digits| < TWO_31
    case Leaf(Blob(data)) => |data| < TWO_31
    case Leaf(Int(i)) => IsInt64(i)
    case Leaf(_) => true
    case Arr(elems) =>
      |elems| < TWO_31 && forall i | 0 <= i < |elems| :: Proper(elems[i])
    case Obj(names, vals) =>
      && |names| == |vals| < TWO_31 && Ascending(names)
      && (forall i | 0 <= i < |names| :: |names[i]| < TWO_31)
      && (forall i | 0 <= i < |vals| :: Proper(vals[i]))
  }

  // ---- Decimal text ----

  const ZERO: Byte := 48
  const PLUS: Byte := 43
  const MINUS: Byte := 45

  predicate IsDigit(b: Byte) { ZERO <= b <= ZERO + 9 }

  function Digits(n: nat): (r: Bytes)
    ensures |r| >= 1 && forall i | 0 <= i < |r| :: IsDigit(r[i])
  {
    if n < 10 then [ZERO + n] else Digits(n / 10) + [ZERO + n % 10]
  }

  /** strconv.Itoa. */
  function Itoa(i: int): Bytes {
    if i < 0 then [MINUS] + Digits(-i) else Digits(i)
  }

  function DigitsValue(s: Bytes): Option<nat> {
    if s == [] then Some(0)
    else if !IsDigit(s[|s| - 1]) then None
    else
      var front := DigitsValue(s[..|s| - 1]);
      if front.None? then None else Some(front.value * 10 + (s[|s| - 1] - ZERO) as int)
  }

  /** strconv.Atoi: an optional sign and decimal digits, within 64 bits. */
  function Atoi(s: Bytes): Option<int> {
    var signed := s != [] && (s[0] == PLUS || s[0] == MINUS);
    var body := if signed then s[1..] else s;
    var n := DigitsValue(body);
    if body == [] || n.None? then None
    else
      var v: int := if signed && s[0] == MINUS then -(n.value as int) else n.value;
      if IsInt64(v) then Some(v) else None
  }

  lemma {:induction false} DigitsRoundTrip(n: nat)
    ensures DigitsValue(Digits(n)) == Some(n)
  {
    if n < 10 {
      assert Digits(n)[..0] == [];
    } else {
      DigitsRoundTrip(n / 10);
      var d := Digits(n);
      assert d[..|d| - 1] == Digits(n / 10);
    }
  }

  lemma ItoaRoundTrip(i: int)
    requires IsInt64(i)
    ensures Atoi(Itoa(i)) == Some(i)
  {
    var n := if i < 0 then -i else i;
    DigitsRoundTrip(n);
    hide Digits, DigitsValue;
    var d := Digits(n);
    assert ([MINUS] + d)[1..] == d;
  }

  function Pow10(k: nat): nat { if k == 0 then 1 else 10 * Pow10(k - 1) }

  lemma {:induction false} DigitsAreFew(n: nat, k: nat)
    requires n < Pow10(k)
    ensures |Digits(n)| <= k + 1
  {
    if n >= 10 { DigitsAreFew(n / 10, k - 1); }
  }

  /** A 64-bit integer has at most twenty digits. */
  lemma ItoaIsShort(i: int)
    requires IsInt64(i)
    ensures |Itoa(i)| <= 21
  {
    assert Pow10(5) == 100000;
    assert Pow10(10) == 100000 * Pow10(5);
    assert Pow10(15) == 100000 * Pow10(10);
    DigitsAreFew(if i < 0 then -i else i, 19);
  }

  /** The scalar a string is stored as: integers in canonical decimal form get
      the compact representation. */
  function StringScalar(s: Bytes): Scalar {
    var i := Atoi(s);
    if i.Some? && Itoa(i.value) == s then Int(i.value) else Str(s)
  }

  /** Exactly the canonical texts of 64-bit integers are stored as integers. */
  lemma StringScalarIsInt(s: Bytes)
    ensures StringScalar(s).Int? <==> exists i :: IsInt64(i) && s == Itoa(i)
  {
    forall i | IsInt64(i) && s == Itoa(i) ensures StringScalar(s).Int? {
      ItoaRoundTrip(i);
    }
  }

  // ---- What decimal texts mean, by position ----

  /** The first `n` digits of a text, each times its power of ten. */
  ghost function DigitSum(s: Bytes, n: nat): int
    requires n <= |s|
  {
    if n == 0 then 0 else DigitSum(s, n - 1) + (s[n - 1] as int - 48) * Pow10(|s| - n)
  }

  /** One or more digits, of which the last counts ones. */
  ghost predicate NaturalText(s: Bytes, v: int) {
    s != [] && (forall i | 0 <= i < |s| :: 48 <= s[i] <= 57) && v == DigitSum(s, |s|)
  }

  /** Digits, perhaps behind a sign: 43 is plus, 45 is minus. */
  ghost predicate IntText(s: Bytes, v: int) {
    || NaturalText(s, v)
    || (s != [] && s[0] == 43 && NaturalText(s[1..], v))
    || (s != [] && s[0] == 45 && NaturalText(s[1..], -v))
  }

  lemma {:induction false} ShiftedSum(s: Bytes, n: nat)
    requires n < |s|
    ensures DigitSum(s, n) == 10 * DigitSum(s[..|s| - 1], n)
  {
    if n > 0 {
      ShiftedSum(s, n - 1);
      var init := s[..|s| - 1];
      assert Pow10(|s| - n) == 10 * Pow10(|init| - n) && init[n - 1] == s[n - 1];
    }
  }

  lemma {:induction false} DigitsValueMeans(s: Bytes)
    ensures DigitsValue(s).Some? <==> forall i | 0 <= i < |s| :: 48 <= s[i] <= 57
    ensures DigitsValue(s).Some? ==> DigitsValue(s).value == DigitSum(s, |s|)
  {
    if s != [] {
      var init := s[..|s| - 1];
      DigitsValueMeans(init);
      ShiftedSum(s, |s| - 1);
      assert s == init + [s[|s| - 1]] && Pow10(0) == 1;
    }
  }

  /** Exactly the texts of 64-bit integers are parsed, to the integers they stand for. */
  lemma AtoiMeans(s: Bytes, v: int)
    ensures Atoi(s) == Some(v) <==> IsInt64(v) && IntText(s, v)
  {
    hide DigitsValue, DigitSum;
    DigitsValueMeans(s);
    if s != [] {
      DigitsValueMeans(s[1..]);
    }
  }

  /** An integer is printed without a plus sign and without leading zeros. */
  lemma ItoaMeans(i: int)
    ensures var s := Itoa(i);
            && IntText(s, i) && (i < 0 <==> s[0] == 45) && s[0] != 43
            && var digits := if i < 0 then s[1..] else s;
               NaturalText(digits, if i < 0 then -i else i) && (|digits| > 1 ==> digits[0] != 48)
  {
    hide Digits, DigitsValue, DigitSum;
    var n := if i < 0 then -i else i;
    var d := Digits(n);
    DigitsRoundTrip(n);
    DigitsValueMeans(d);
    NoLeadingZero(n);
    assert ([MINUS] + d)[1..] == d;
    assert 48 <= d[0] <= 57;
  }

  lemma {:induction false} NoLeadingZero(n: nat)
    ensures |Digits(n)| > 1 ==> Digits(n)[0] != 48
    ensures n > 0 ==> Digits(n)[0] != 48
  {
    if n >= 10 {
      NoLeadingZero(n / 10);
    }
  }

  /** A plus sign and leading zeros make no difference. */
  lemma SignsAndZeros(s: Bytes, v: int)
    requires NaturalText(s, v)
    ensures IntText([43] + s, v) && IntText([45] + s, -v) && NaturalText([48] + s, v)
  {
    assert ([43] + s)[1..] == s && ([45] + s)[1..] == s;
    ZeroSum(s, |s|);
  }

  lemma {:induction false} ZeroSum(s: Bytes, n: nat)
    requires n <= |s|
    ensures DigitSum([48] + s, n + 1) == DigitSum(s, n)
  {
    var z := [48] + s;
    if n == 0 {
      assert DigitSum(z, 0) == 0;
    } else {
      ZeroSum(s, n - 1);
      assert z[n] == s[n - 1];
    }
  }

  // ---- Representation and value ----

  function ScalarValue(s: Scalar): Scalar {
    match s
    case Int(i) => Str(Itoa(i))
    case _ => s
  }

  /** The JSON value of a representation: compact integers read back as text. */
  function Value(t: Tree): Tree {
    match t
    case Leaf(s) => Leaf(ScalarValue(s))
    case Arr(elems) => Arr(seq(|elems|, i requires 0 <= i < |elems| => Value(elems[i])))
    case Obj(names, vals) => Obj(names, seq(|vals|, i requires 0 <= i < |vals| => Value(vals[i])))
  }

  function ScalarRepr(s: Scalar): Scalar {
    match s
    case Str(text) => StringScalar(text)
    case _ => s
  }

  /** The representation that the snapshot writer chooses for a value. */
  function Repr(t: Tree): Tree {
    match t
    case Leaf(s) => Leaf(ScalarRepr(s))
    case Arr(elems) => Arr(seq(|elems|, i requires 0 <= i < |elems| => Repr(elems[i])))
    case Obj(names, vals) => Obj(names, seq(|vals|, i requires 0 <= i < |vals| => Repr(vals[i])))
  }

  /** A value as a client hands it over: strings are strings. */
  ghost predicate Plain(t: Tree) {
    match t
    case Leaf(s) => !s.Int?
    case Arr(elems) => forall i | 0 <= i < |elems| :: Plain(elems[i])
    case Obj(_, vals) => forall i | 0 <= i < |vals| :: Plain(vals[i])
  }

  lemma {:induction false} ReprKeepsValue(t: Tree)
    requires Plain(t)
    ensures Value(Repr(t)) == t
  {
    match t
    case Leaf(s) =>
    case Arr(elems) =>
      forall i | 0 <= i < |elems| ensures Value(Repr(elems[i])) == elems[i] {
        ReprKeepsValue(elems[i]);
      }
      assert Value(Repr(t)).elems == elems;
    case Obj(names, vals) =>
      forall i | 0 <= i < |vals| ensures Value(Repr(vals[i])) == vals[i] {
        ReprKeepsValue(vals[i]);
      }
      assert Value(Repr(t)).vals == vals;
  }

  lemma {:induction false} ReprIsProper(t: Tree)
    requires Proper(t)
    ensures Proper(Repr(t))
  {
    match t
    case Leaf(s) =>
    case Arr(elems) =>
      forall i | 0 <= i < |elems| ensures Proper(Repr(elems[i])) { ReprIsProper(elems[i]); }
    case Obj(names, vals) =>
      forall i | 0 <= i < |vals| ensures Proper(Repr(vals[i])) { ReprIsProper(vals[i]); }
  }
}
