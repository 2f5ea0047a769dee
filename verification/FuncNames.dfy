/**
 The registry of function names used by the call log, and the late resolution of the
 entries that were logged before their function was registered.
 */
module FuncNames {
  const AddressMax: nat := 0xFFFF_FFFF_FFFF_FFFF

  /** A function's address, a 64-bit `uintptr_t`. */
  type Address = a: nat | a <= AddressMax

  type Registry = map<Address, string>

  // ------------------------------------------------------------ decimal numbers

  predicate IsDigit(c: char) { '0' <= c <= '9' }

  function DigitChar(d: nat): (c: char)
    requires d < 10
    ensures IsDigit(c)
  {
    '0' + d as char
  }

  /** Printing an address (`std::to_string`). */
  function ToDecimal(n: nat): string {
    if n < 10 then [DigitChar(n)] else ToDecimal(n / 10) + [DigitChar(n % 10)]
  }

  function DigitPrefix(s: string): (p: string)
    ensures forall c :: c in p ==> IsDigit(c)
  {
    if s == "" || !IsDigit(s[0]) then "" else [s[0]] + DigitPrefix(s[1..])
  }

  function DigitsValue(s: string): nat
    requires forall c :: c in s ==> IsDigit(c)
  {
    if s == "" then 0
    else
      assert s[|s| - 1] in s;
      assert IsDigit(s[|s| - 1]);
      10 * DigitsValue(s[..|s| - 1]) + (s[|s| - 1] as nat - '0' as nat)
  }

  /** Reading an unsigned number from a stream: the leading digits, saturating at the largest address. */
  function ReadAddress(s: string): Address {
    var v := DigitsValue(DigitPrefix(s));
    if v > AddressMax then AddressMax else v
  }

  lemma {:induction false} DecimalIsDigits(n: nat)
    ensures ToDecimal(n) != "" && forall c :: c in ToDecimal(n) ==> IsDigit(c)
  {
    if n >= 10 {
      DecimalIsDigits(n / 10);
    }
  }

  lemma {:induction false} DecimalValue(n: nat)
    ensures forall c :: c in ToDecimal(n) ==> IsDigit(c)
    ensures DigitsValue(ToDecimal(n)) == n
  {
    DecimalIsDigits(n);
    if n < 10 {
      assert DigitsValue([DigitChar(n)]) == 10 * DigitsValue("") + n;
    } else {
      DecimalValue(n / 10);
      var s := ToDecimal(n);
      assert s[..|s| - 1] == ToDecimal(n / 10);
    }
  }

  /** The decimal digit of n that stands k places from the right. */
  function DigitAt(n: nat, k: nat): nat
    decreases k
  {
    if k == 0 then n % 10 else DigitAt(n / 10, k - 1)
  }

  /** The text of a number is its decimal digits, the last one rightmost, without leading zeros. */
  lemma {:induction false} DecimalDigits(n: nat, k: nat)
    ensures ToDecimal(n) != "" && (n > 0 ==> ToDecimal(n)[0] != '0')
    ensures k < |ToDecimal(n)| ==> ToDecimal(n)[|ToDecimal(n)| - 1 - k] as int == '0' as int + DigitAt(n, k)
    ensures k >= |ToDecimal(n)| ==> DigitAt(n, k) == 0
    decreases n, k
  {
    if n >= 10 {
      DecimalDigits(n / 10, if k > 0 then k - 1 else 0);
    } else if k > 0 {
      NoDigitsOfZero(k - 1);
    }
  }

  lemma {:induction false} NoDigitsOfZero(k: nat)
    ensures DigitAt(0, k) == 0
  {
    if k > 0 {
      NoDigitsOfZero(k - 1);
    }
  }

  lemma {:induction false} AllDigitsPrefix(s: string)
    requires forall c :: c in s ==> IsDigit(c)
    ensures DigitPrefix(s) == s
  {
    if s != "" {
      assert s[0] in s;
      AllDigitsPrefix(s[1..]);
      assert [s[0]] + s[1..] == s;
    }
  }

  /** Reading a printed address gives the address back. */
  lemma {:induction false} ReadPrinted(p: Address)
    ensures ReadAddress(ToDecimal(p)) == p
  {
    DecimalValue(p);
    AllDigitsPrefix(ToDecimal(p));
  }

  // ------------------------------------------------------------------- registry

  /** `std::map::insert`: an address that is already registered keeps its name. */
  function Register(r: Registry, f: Address, name: string): Registry {
    if f in r then r else r[f := name]
  }

  function FuncName(r: Registry, f: Address): string {
    if f in r then r[f] else ToDecimal(f)
  }

  /** What `clear` does to the name of one entry. */
  function Resolve(r: Registry, name: string): string {
    if name != "" && IsDigit(name[0]) then FuncName(r, ReadAddress(name)) else name
  }

  /** Registered names are those of C++ functions: not empty, and not starting with a digit. */
  ghost predicate NamesOk(r: Registry) {
    forall f :: f in r ==> r[f] != "" && !IsDigit(r[f][0])
  }

  ghost predicate Extends(r: Registry, r': Registry) {
    forall f :: f in r ==> f in r' && r'[f] == r[f]
  }

  /** Registering a new function gives it the name, and changes the name of no other and of no function that has one. */
  lemma RegisterExtends(r: Registry, f: Address, name: string)
    ensures Extends(r, Register(r, f, name)) && f in Register(r, f, name)
    ensures f !in r ==> FuncName(Register(r, f, name), f) == name
    ensures forall g: Address :: g != f || g in r ==> FuncName(Register(r, f, name), g) == FuncName(r, g)
  {
  }

  /** An entry logged under registry r ends up with the name its function has in the later registry r'. */
  lemma {:induction false} LateNamesResolve(r: Registry, r': Registry, f: Address)
    requires NamesOk(r) && Extends(r, r')
    ensures Resolve(r', FuncName(r, f)) == FuncName(r', f)
  {
    if f !in r {
      DecimalIsDigits(f);
      assert ToDecimal(f)[0] in ToDecimal(f);
      ReadPrinted(f);
    }
  }
}
