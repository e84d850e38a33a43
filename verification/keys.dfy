/** Cache keys of any comparable type and their string form for string-keyed backends. */
module Keys {
  import opened Wrappers

  /** A key as a Go value: its dynamic type is part of its identity. */
  datatype Key =
    | Text(s: string)
    | Signed(bits: nat, v: int)       // int, int8 .. int64
    | Unsigned(bits: nat, u: nat)     // uint, uint8 .. uint64
    | Stringer(id: nat, shown: string)
    | Other(id: nat, printed: string) // everything else, as fmt prints it

  // ----- Decimal numerals -----

  function Digit(d: nat): char
    requires d < 10
  {
    '0' + d as char
  }

  function FormatUint(n: nat): (s: string)
    ensures |s| > 0
  {
    if n < 10 then [Digit(n)] else FormatUint(n / 10) + [Digit(n % 10)]
  }

  function FormatInt(n: int): string {
    if n < 0 then "-" + FormatUint(-n) else FormatUint(n)
  }

  predicate IsDigit(c: char) {
    '0' <= c <= '9'
  }

  function DigitValue(c: char): nat
    requires IsDigit(c)
  {
    (c - '0') as nat
  }

  function ParseUint(s: string): nat
    requires forall c | c in s :: IsDigit(c)
  {
    if s == "" then 0
    else
      var last := s[|s| - 1];
      assert last in s;
      ParseUint(s[..|s| - 1]) * 10 + DigitValue(last)
  }

  predicate IsNumeral(s: string) {
    s != "" && forall c | c in s :: IsDigit(c)
  }

  function ParseInt(s: string): Option<int> {
    if s != "" && s[0] == '-' && IsNumeral(s[1..]) then Some(-(ParseUint(s[1..]) as int))
    else if IsNumeral(s) then Some(ParseUint(s))
    else None
  }

  /** A numeral as people write it: no leading zero, and no minus sign before zero. */
  predicate CanonicalUint(s: string) {
    IsNumeral(s) && (s[0] == '0' ==> s == "0")
  }

  predicate Canonical(s: string) {
    CanonicalUint(s) || (s != "" && s[0] == '-' && CanonicalUint(s[1..]) && s != "-0")
  }

  lemma {:induction false} ParseFormatUint(n: nat)
    ensures CanonicalUint(FormatUint(n)) && (n > 0 ==> FormatUint(n)[0] != '0')
    ensures ParseUint(FormatUint(n)) == n
  {
    if n < 10 {
      assert FormatUint(n)[..0] == "";
    } else {
      ParseFormatUint(n / 10);
      var s := FormatUint(n);
      assert s[..|s| - 1] == FormatUint(n / 10);
    }
  }

  /** Printing undoes parsing, on numerals without leading zeros. */
  lemma {:induction false} FormatParseUint(s: string)
    requires CanonicalUint(s)
    ensures FormatUint(ParseUint(s)) == s
    ensures s != "0" ==> ParseUint(s) > 0
  {
    var n := |s| - 1;
    assert s == s[..n] + [s[n]] && s[n] in s;
    if n == 0 {
      assert s[..0] == "";
    } else {
      FormatParseUint(s[..n]);
      assert s[..n] != "0";
    }
  }

  /** Parsing undoes printing, and what is printed is canonical. */
  lemma ParseFormatInt(n: int)
    ensures ParseInt(FormatInt(n)) == Some(n) && Canonical(FormatInt(n))
  {
    ParseFormatUint(if n < 0 then -n else n);
    if n < 0 {
      assert FormatInt(n)[1..] == FormatUint(-n);
    } else {
      assert FormatUint(n)[0] in FormatUint(n);
    }
  }

  /** Printing undoes parsing exactly on canonical numerals. */
  lemma FormatParseInt(s: string)
    requires ParseInt(s).Some?
    ensures FormatInt(ParseInt(s).value) == s <==> Canonical(s)
  {
    ParseFormatInt(ParseInt(s).value);
    if CanonicalUint(s) {
      assert s[0] in s;
      FormatParseUint(s);
    } else if Canonical(s) {
      FormatParseUint(s[1..]);
      assert s == "-" + s[1..];
    }
  }

  // ----- ToString -----

  function ToString(key: Key): string {
    match key
    case Text(s) => s
    case Signed(_, v) => FormatInt(v)
    case Unsigned(_, u) => FormatUint(u)
    case Stringer(_, shown) => shown
    case Other(_, printed) => printed
  }

  /** The number an integer key stands for. */
  function Number(key: Key): int
    requires key.Signed? || key.Unsigned?
  {
    if key.Signed? then key.v else key.u
  }

  /** Integer keys of any width and signedness collide exactly when they are the same number. */
  lemma IntegerKeysFaithful(a: Key, b: Key)
    requires (a.Signed? || a.Unsigned?) && (b.Signed? || b.Unsigned?)
    ensures ToString(a) == ToString(b) <==> Number(a) == Number(b)
  {
    ParseFormatInt(Number(a));
    ParseFormatInt(Number(b));
    assert ToString(a) == FormatInt(Number(a)) && ToString(b) == FormatInt(Number(b));
  }

  /** A text key collides with an integer key exactly when it is canonical and parses to that number. */
  lemma TextCollidesWithInteger(s: string, k: Key)
    requires k.Signed? || k.Unsigned?
    ensures ToString(Text(s)) == ToString(k) <==> Canonical(s) && ParseInt(s) == Some(Number(k))
  {
    ParseFormatInt(Number(k));
    if ParseInt(s).Some? {
      FormatParseInt(s);
    }
  }

  predicate IsNumber(key: Key) {
    key.Signed? || key.Unsigned?
  }

  /** What a key shows that is not a number: the text itself, or what String or fmt gives. */
  function Shown(key: Key): string
    requires !IsNumber(key)
  {
    match key
    case Text(s) => s
    case Stringer(_, shown) => shown
    case Other(_, printed) => printed
    case _ => assert false; ""
  }

  /** Any two keys collide exactly when they are the same number, show the same, or one shows the other's canonical numeral. */
  lemma CollideExactly(a: Key, b: Key)
    ensures ToString(a) == ToString(b) <==>
      if IsNumber(a) && IsNumber(b) then Number(a) == Number(b)
      else if IsNumber(a) then Canonical(Shown(b)) && ParseInt(Shown(b)) == Some(Number(a))
      else if IsNumber(b) then Canonical(Shown(a)) && ParseInt(Shown(a)) == Some(Number(b))
      else Shown(a) == Shown(b)
  {
    if IsNumber(a) && IsNumber(b) {
      IntegerKeysFaithful(a, b);
    } else if IsNumber(a) {
      TextCollidesWithInteger(Shown(b), a);
    } else if IsNumber(b) {
      TextCollidesWithInteger(Shown(a), b);
    }
  }

  /** Text keys are their own string form, so no two distinct ones collide. */
  lemma TextKeysFaithful(a: string, b: string)
    ensures ToString(Text(a)) == a
    ensures ToString(Text(a)) == ToString(Text(b)) <==> a == b
  {
  }

  // ----- Collections of keys -----

  predicate NoneCollide(keys: set<Key>) {
    forall a, b | a in keys && b in keys && ToString(a) == ToString(b) :: a == b
  }

  /** The last key of the list with the given string form. */
  function LastWithForm(keys: seq<Key>, form: string): (r: Option<Key>)
    ensures r.Some? ==> r.value in keys && ToString(r.value) == form
    ensures r.None? ==> forall k | k in keys :: ToString(k) != form
  {
    if keys == [] then None
    else if ToString(keys[|keys| - 1]) == form then Some(keys[|keys| - 1])
    else LastWithForm(keys[..|keys| - 1], form)
  }
}
