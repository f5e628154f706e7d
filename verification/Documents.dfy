/** Dynamically typed documents, as a JSON reader or a dictionary literal gives them, and the
    canonical decimal text of integers. */
module Documents {
  import opened Prelude

  /** A dictionary key: text, an integer, or anything else that can be hashed. */
  datatype Name = Text(text: string) | Index(index: int) | OtherName

  datatype Value =
    | Null
    | Bool(flag: bool)
    | Int(whole: int)
    | Num(num: real)
    | NotANumber
    | Str(chars: string)
    | List(items: seq<Value>)
    | Dict(entries: map<Name, Value>)

  function Field(v: Value, name: string): Option<Value> {
    if v.Dict? && Text(name) in v.entries then Some(v.entries[Text(name)]) else None
  }

  function Ints(s: seq<int>): (vs: seq<Value>)
    ensures |vs| == |s|
  {
    seq(|s|, i requires 0 <= i < |s| => Int(s[i]))
  }

  predicate OnlyInts(v: Value) { v.List? && forall i | 0 <= i < |v.items| :: v.items[i].Int? }

  /** The integers of a list, when it holds nothing else. */
  method ReadInts(v: Value) returns (s: Option<seq<int>>)
    ensures s.Some? ==> v == List(Ints(s.value))
    ensures s.None? ==> !OnlyInts(v)
  {
    if !v.List? { return None; }
    var read := [];
    for i := 0 to |v.items|
      invariant |read| == i && forall j | 0 <= j < i :: v.items[j] == Int(read[j])
    {
      if !v.items[i].Int? {
        return None;
      }
      read := read + [v.items[i].whole];
    }
    assert v.items == Ints(read);
    s := Some(read);
  }

  lemma {:induction false} IntsAreInjective(s: seq<int>, t: seq<int>)
    requires Ints(s) == Ints(t)
    ensures s == t
  {
    forall i | 0 <= i < |s| ensures s[i] == t[i] { assert Ints(s)[i] == Ints(t)[i]; }
  }

  // ----- decimal text -----

  function Digit(d: int): char
    requires 0 <= d < 10
  {
    ('0' as int + d) as char
  }

  predicate IsDigit(c: char) { '0' as int <= c as int <= '9' as int }

  function Digits(n: nat): (s: string)
    ensures s != [] && forall i | 0 <= i < |s| :: IsDigit(s[i])
  {
    if n < 10 then [Digit(n)] else Digits(n / 10) + [Digit(n % 10)]
  }

  /** The canonical text of an integer: no sign but a minus, no leading zeros. */
  function Decimal(i: int): string { if i < 0 then "-" + Digits(-i) else Digits(i) }

  function ValueOfDigits(s: string): (n: int)
    requires forall i | 0 <= i < |s| :: IsDigit(s[i])
    ensures n >= 0
  {
    if s == [] then 0
    else
      var front, last := s[..|s| - 1], s[|s| - 1];
      assert IsDigit(last) && forall i | 0 <= i < |front| :: front[i] == s[i];
      10 * ValueOfDigits(front) + (last as int - '0' as int)
  }

  predicate AllDigits(s: string) { s != [] && forall i | 0 <= i < |s| :: IsDigit(s[i]) }

  /** The integer of which a text is the canonical form. */
  function CanonicalInt(s: string): Option<int> {
    var negative := |s| > 0 && s[0] == '-';
    var digits := if negative then s[1..] else s;
    if !AllDigits(digits) then None
    else
      var n: int := if negative then -ValueOfDigits(digits) else ValueOfDigits(digits);
      if Decimal(n) == s then Some(n) else None
  }

  lemma {:induction false} DigitsReadBack(n: nat)
    ensures ValueOfDigits(Digits(n)) == n
  {
    if n >= 10 {
      DigitsReadBack(n / 10);
      assert Digits(n)[..|Digits(n)| - 1] == Digits(n / 10);
    } else {
      assert ValueOfDigits([]) == 0;
    }
  }

  /** A text is read as i exactly when it is the canonical text of i. */
  lemma {:induction false} CanonicalTextOnly(s: string, i: int)
    ensures CanonicalInt(s) == Some(i) <==> s == Decimal(i)
  {
    hide Digits;
    if s == Decimal(i) {
      DigitsReadBack(if i < 0 then -i else i);
      assert i >= 0 ==> IsDigit(s[0]);
      if i < 0 { assert s[1..] == Digits(-i); }
    }
  }

  /** The bucket index a dictionary key stands for. */
  function BucketIndex(n: Name): Option<int> {
    match n
    case Index(i) => Some(i)
    case Text(s) => CanonicalInt(s)
    case OtherName => None
  }
}
