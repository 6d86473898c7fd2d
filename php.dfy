/**
 * The PHP runtime rules the Eloquent query compiler depends on: decoded JSON values,
 * ordered arrays, the (int)/(bool)/(string) casts, loose comparison against fixed words,
 * and the string helpers ucfirst, strtolower, empty and str_contains.
 * Integers are unbounded here: PHP's 64-bit integer width is not modelled.
 */
module Php {

  datatype Option<+T> = None | Some(value: T) {
    function GetOr(default: T): T {
      if Some? then value else default
    }
  }

  /** A PHP array key. */
  datatype Key = IntKey(n: int) | StrKey(s: string)

  /** A decoded JSON value as PHP holds it: objects and lists are both ordered arrays. */
  datatype Json =
    | JNull
    | JBool(b: bool)
    | JInt(i: int)
    | JStr(s: string)
    | JArr(entries: seq<(Key, Json)>)

  /** A value after `castValue`: plain JSON, or the opaque result of a float or timestamp cast. */
  datatype Cell = Plain(json: Json) | FloatOf(source: Json) | TimestampOf(source: Json)

  function KeyValue(k: Key): Json {
    match k
    case IntKey(n) => JInt(n)
    case StrKey(s) => JStr(s)
  }

  // ---------------------------------------------------------------------------
  // Ordered arrays
  // ---------------------------------------------------------------------------

  /** The keys of an ordered array, in order: `array_keys`. */
  function KeysOf<K, V>(a: seq<(K, V)>): (r: seq<K>)
    ensures |r| == |a|
  {
    if a == [] then [] else [a[0].0] + KeysOf(a[1..])
  }

  lemma {:induction false} KeysOfAppend<K, V>(a: seq<(K, V)>, b: seq<(K, V)>)
    ensures KeysOf(a + b) == KeysOf(a) + KeysOf(b)
  {
    if a == [] {
      assert a + b == b;
    } else {
      assert (a + b)[1..] == a[1..] + b;
      KeysOfAppend(a[1..], b);
    }
  }

  /** `$a[$k]` for a key that may be absent. */
  function Get<K(==), V>(a: seq<(K, V)>, k: K): (r: Option<V>)
    ensures r.None? <==> k !in KeysOf(a)
  {
    if a == [] then None else if a[0].0 == k then Some(a[0].1) else Get(a[1..], k)
  }

  /** `$a[$k] = $v`: an existing key keeps its position and takes the new value; a new key is appended. */
  function Put<K(==,!new), V>(a: seq<(K, V)>, k: K, v: V): (r: seq<(K, V)>)
    ensures Get(r, k) == Some(v)
    ensures KeysOf(r) == if k in KeysOf(a) then KeysOf(a) else KeysOf(a) + [k]
  {
    if a == [] then [(k, v)]
    else if a[0].0 == k then [(k, v)] + a[1..]
    else [a[0]] + Put(a[1..], k, v)
  }

  /** After `$a[$k] = $v`, every other key reads as before. */
  lemma {:induction false} GetAfterPut<K(!new), V>(a: seq<(K, V)>, k: K, v: V, k': K)
    ensures Get(Put(a, k, v), k') == if k' == k then Some(v) else Get(a, k')
  {
    if a != [] && a[0].0 != k {
      GetAfterPut(a[1..], k, v, k');
    }
  }

  lemma {:induction false} KeysOfIndex<K, V>(a: seq<(K, V)>, i: int)
    requires 0 <= i < |a|
    ensures KeysOf(a)[i] == a[i].0
  {
    if i > 0 {
      KeysOfIndex(a[1..], i - 1);
    }
  }

  /** Writing a key the array does not have appends the entry at the end. */
  lemma {:induction false} PutNewKeyAppends<K(!new), V>(a: seq<(K, V)>, k: K, v: V)
    requires k !in KeysOf(a)
    ensures Put(a, k, v) == a + [(k, v)]
  {
    if a != [] {
      PutNewKeyAppends(a[1..], k, v);
    }
  }

  ghost predicate UniqueKeys<K, V>(a: seq<(K, V)>) {
    forall i, j :: 0 <= i < j < |a| ==> a[i].0 != a[j].0
  }

  // ---------------------------------------------------------------------------
  // Strings
  // ---------------------------------------------------------------------------

  function UpperChar(c: char): char {
    if 'a' <= c <= 'z' then (c as int - 32) as char else c
  }

  function LowerChar(c: char): char {
    if 'A' <= c <= 'Z' then (c as int + 32) as char else c
  }

  /** PHP `ucfirst`: only the first character is upper-cased (ASCII letters only). */
  function Ucfirst(s: string): string {
    if s == [] then s else [UpperChar(s[0])] + s[1..]
  }

  /** PHP `strtolower` (ASCII letters only). */
  function Lower(s: string): string {
    if s == [] then [] else [LowerChar(s[0])] + Lower(s[1..])
  }

  lemma {:induction false} LowerHasNoUpperCase(s: string, i: nat)
    requires i < |Lower(s)|
    ensures !('A' <= Lower(s)[i] <= 'Z')
  {
    if i > 0 { LowerHasNoUpperCase(s[1..], i - 1); }
  }

  /** PHP `empty()` of a string: the empty string and "0". */
  predicate EmptyString(s: string) {
    s == "" || s == "0"
  }

  predicate Occurs(haystack: string, needle: string) {
    needle <= haystack || (|haystack| > 0 && Occurs(haystack[1..], needle))
  }

  /** Laravel's `str_contains` with one needle: an empty needle is never contained. */
  predicate Contains(haystack: string, needle: string) {
    needle != "" && Occurs(haystack, needle)
  }

  lemma {:induction false} OccursAppend(a: string, b: string, needle: string)
    requires Occurs(b, needle)
    ensures Occurs(a + b, needle)
  {
    if a == [] {
      assert a + b == b;
    } else {
      assert (a + b)[1..] == a[1..] + b;
      OccursAppend(a[1..], b, needle);
    }
  }

  lemma OccursPrefix(a: string, b: string, needle: string)
    requires needle <= b
    ensures Occurs(a + b, needle)
  {
    OccursAppend(a, b, needle);
  }

  // ---------------------------------------------------------------------------
  // Casts
  // ---------------------------------------------------------------------------

  function DigitChar(d: nat): char
    requires d < 10
  {
    ('0' as int + d) as char
  }

  predicate IsDigit(c: char) {
    '0' <= c <= '9'
  }

  function NatToString(n: nat): (s: string)
    ensures |s| > 0
    ensures forall i :: 0 <= i < |s| ==> IsDigit(s[i])
  {
    if n < 10 then [DigitChar(n)] else NatToString(n / 10) + [DigitChar(n % 10)]
  }

  /** PHP's decimal rendering of an integer. */
  function IntToString(n: int): string {
    if n < 0 then "-" + NatToString(-n) else NatToString(n)
  }

  /** The longest prefix of `s` made of decimal digits. */
  function DigitPrefix(s: string): (d: string)
    ensures d <= s
    ensures forall i :: 0 <= i < |d| ==> IsDigit(d[i])
  {
    if s != [] && IsDigit(s[0]) then [s[0]] + DigitPrefix(s[1..]) else []
  }

  function DigitValue(c: char): nat
    requires IsDigit(c)
  {
    c as int - '0' as int
  }

  function DigitsValue(d: string): nat
    requires forall i :: 0 <= i < |d| ==> IsDigit(d[i])
  {
    if d == [] then 0 else DigitsValue(d[..|d| - 1]) * 10 + DigitValue(d[|d| - 1])
  }

  predicate IsSpace(c: char) {
    c == ' ' || c == '\t' || c == '\n' || c == '\r' || c == '\U{B}' || c == '\U{C}'
  }

  /** `n` times `10` to the power `e`, for an exponent of either sign, truncated toward zero. */
  function Scale(n: nat, e: int): nat
    decreases if e >= 0 then e else -e
  {
    if e > 0 then Scale(10 * n, e - 1)
    else if e < 0 then Scale(n / 10, e + 1)
    else n
  }

  /** The exponent `s` begins with: `e` or `E`, an optional sign, at least one digit; 0 without one. */
  function ExponentOf(s: string): int {
    if |s| >= 2 && (s[0] == 'e' || s[0] == 'E') && IsDigit(s[1]) then DigitsValue(DigitPrefix(s[1..]))
    else if |s| >= 3 && (s[0] == 'e' || s[0] == 'E') && (s[1] == '+' || s[1] == '-') && IsDigit(s[2]) then
      (if s[1] == '-' then -1 else 1) * DigitsValue(DigitPrefix(s[2..]))
    else 0
  }

  /**
   * The unsigned decimal number `s` begins with, truncated toward zero: digits, an optional
   * fraction after a dot, an optional exponent. Text that does not begin with one reads as 0.
   */
  function UnsignedNumberValue(s: string): nat {
    var whole := DigitPrefix(s);
    var rest := s[|whole|..];
    if rest != [] && rest[0] == '.' then
      var frac := DigitPrefix(rest[1..]);
      var digits := whole + frac;
      assert forall i :: 0 <= i < |digits| ==> IsDigit(digits[i]);
      Scale(DigitsValue(digits), ExponentOf(rest[1 + |frac|..]) - |frac|)
    else Scale(DigitsValue(whole), ExponentOf(rest))
  }

  /**
   * The integer a PHP 7.1 string converts to: leading white space, an optional sign, then a
   * decimal number, which may have a fraction or an exponent (such a number is read as a float
   * and truncated toward zero). Anything after the number is ignored.
   */
  function StringToInt(s: string): int {
    if s != [] && IsSpace(s[0]) then StringToInt(s[1..])
    else if s != [] && s[0] == '-' then -(UnsignedNumberValue(s[1..]) as int)
    else if s != [] && s[0] == '+' then UnsignedNumberValue(s[1..])
    else UnsignedNumberValue(s)
  }

  /** PHP `(int)`. */
  function ToInt(j: Json): int {
    match j
    case JNull => 0
    case JBool(b) => if b then 1 else 0
    case JInt(n) => n
    case JStr(s) => StringToInt(s)
    case JArr(e) => if e == [] then 0 else 1
  }

  /** PHP `(bool)`, the truth value of `if ($x)`. */
  function ToBool(j: Json): bool {
    match j
    case JNull => false
    case JBool(b) => b
    case JInt(n) => n != 0
    case JStr(s) => s != "" && s != "0"
    case JArr(e) => e != []
  }

  /** PHP `(string)`. */
  function ToStr(j: Json): string {
    match j
    case JNull => ""
    case JBool(b) => if b then "1" else ""
    case JInt(n) => IntToString(n)
    case JStr(s) => s
    case JArr(_) => "Array"
  }

  /**
   * PHP 7's loose `$j == $word` where `$word` is one of the source's fixed words, all of which
   * are non-empty, not numeric and do not start with a digit: a string compares exactly, an
   * integer equals such a word only when it is 0, a boolean equals it when true.
   */
  predicate LooseEqualsWord(j: Json, word: string) {
    match j
    case JStr(s) => s == word
    case JInt(n) => n == 0
    case JBool(b) => b
    case _ => false
  }

  /** `in_array($j, $words)` without strict comparison. */
  predicate LooselyIn(j: Json, words: seq<string>) {
    exists i :: 0 <= i < |words| && LooseEqualsWord(j, words[i])
  }

  // ---------------------------------------------------------------------------
  // Properties of the casts
  // ---------------------------------------------------------------------------

  lemma {:induction false} DigitPrefixOfDigits(d: string)
    requires forall i :: 0 <= i < |d| ==> IsDigit(d[i])
    ensures DigitPrefix(d) == d
  {
    if d != [] {
      DigitPrefixOfDigits(d[1..]);
      assert d == [d[0]] + d[1..];
    }
  }

  lemma {:induction false} DigitsValueOfNatToString(n: nat)
    ensures DigitsValue(NatToString(n)) == n
  {
    var s := NatToString(n);
    if n >= 10 {
      DigitsValueOfNatToString(n / 10);
      assert s[..|s| - 1] == NatToString(n / 10);
    }
  }

  /** A text of digits alone reads as the number those digits spell. */
  lemma NumberValueOfDigits(d: string)
    requires forall i :: 0 <= i < |d| ==> IsDigit(d[i])
    ensures UnsignedNumberValue(d) == DigitsValue(d)
  {
    DigitPrefixOfDigits(d);
    assert d[|d|..] == [];
  }

  /** Reading back PHP's decimal rendering of an integer yields that integer. */
  lemma {:induction false} StringToIntOfIntToString(n: int)
    ensures ToInt(JStr(ToStr(JInt(n)))) == n
  {
    if n < 0 {
      var s := IntToString(n);
      assert s[1..] == NatToString(-n);
      NumberValueOfDigits(NatToString(-n));
      DigitsValueOfNatToString(-n);
    } else {
      var s := NatToString(n);
      assert !IsSpace(s[0]) && s[0] != '-' && s[0] != '+';
      NumberValueOfDigits(s);
      DigitsValueOfNatToString(n);
    }
  }

  /** The leading digits of a text that starts with digits `d` are `d` and then those of the rest. */
  lemma {:induction false} DigitPrefixAppend(d: string, t: string)
    requires forall i :: 0 <= i < |d| ==> IsDigit(d[i])
    ensures DigitPrefix(d + t) == d + DigitPrefix(t)
  {
    if d != [] {
      DigitPrefixAppend(d[1..], t);
      assert (d + t)[0] == d[0] && IsDigit(d[0]);
      assert (d + t)[1..] == d[1..] + t;
      assert d == [d[0]] + d[1..];
    } else {
      assert d + t == t;
    }
  }

  /** Digits, `e` and more digits read as the first number times ten to the power of the second. */
  lemma IntCastOfExponentForm(d: string, x: string)
    requires d != [] && forall i :: 0 <= i < |d| ==> IsDigit(d[i])
    requires x != [] && forall i :: 0 <= i < |x| ==> IsDigit(x[i])
    ensures ToInt(JStr(d + "e" + x)) == Scale(DigitsValue(d), DigitsValue(x))
  {
    var s := d + "e" + x;
    var rest := "e" + x;
    assert s == d + rest;
    DigitPrefixAppend(d, rest);
    assert DigitPrefix(rest) == [];
    assert s[|d|..] == rest;
    assert rest[1..] == x;
    DigitPrefixOfDigits(x);
    assert ExponentOf(rest) == DigitsValue(x);
    assert UnsignedNumberValue(s) == Scale(DigitsValue(d), ExponentOf(rest)) by {
      assert DigitPrefix(s) == d;
      assert rest[0] != '.';
    }
    assert s[0] == d[0];
    assert !IsSpace(s[0]) && s[0] != '-' && s[0] != '+';
    assert StringToInt(s) == UnsignedNumberValue(s);
  }

  /** "1e3" reads as 1000: the digits, then the exponent. */
  lemma IntCastOfExponentText()
    ensures ToInt(JStr("1e3")) == 1000
  {
    var s := "1e3";
    assert DigitPrefix(s[1..]) == [] by { assert s[1] == 'e'; }
    assert DigitPrefix(s) == "1";
    assert s[1..] == "e3" && "e3"[1..] == "3";
    assert DigitPrefix("3") == "3" by { assert DigitPrefix("3"[1..]) == []; }
    assert ExponentOf("e3") == 3;
    assert Scale(1, 3) == 1000;
  }

  /** "1.5e3" reads as 1500: digits, a fraction and an exponent. */
  lemma IntCastOfFractionExponentText()
    ensures ToInt(JStr("1.5e3")) == 1500
  {
    var s := "1.5e3";
    assert DigitPrefix(s[1..]) == [] by { assert s[1] == '.'; }
    assert DigitPrefix(s) == "1";
    var rest := s[1..];
    assert rest == ".5e3" && rest[1..] == "5e3";
    assert DigitPrefix("5e3"[1..]) == [] by { assert "5e3"[1] == 'e'; }
    assert DigitPrefix("5e3") == "5";
    assert rest[2..] == "e3" && "e3"[1..] == "3";
    assert DigitPrefix("3") == "3" by { assert DigitPrefix("3"[1..]) == []; }
    assert ExponentOf("e3") == 3;
    assert DigitsValue("15") == 15 by { assert "15"[..1] == "1"; }
    assert "1" + "5" == "15";
    assert UnsignedNumberValue(s) == Scale(DigitsValue("15"), ExponentOf(rest[2..]) - 1);
    assert Scale(15, 2) == 1500;
  }

  /** "-1.9" reads as -1: the fraction is truncated toward zero. */
  lemma IntCastOfNegativeFractionText()
    ensures ToInt(JStr("-1.9")) == -1
  {
    var s := "1.9";
    assert "-1.9"[1..] == s;
    assert DigitPrefix(s[1..]) == [] by { assert s[1] == '.'; }
    assert DigitPrefix(s) == "1";
    assert s[1..] == ".9" && ".9"[1..] == "9";
    assert DigitPrefix("9") == "9" by { assert DigitPrefix("9"[1..]) == []; }
    assert ".9"[2..] == [];
    assert DigitsValue("19") == 19 by { assert "19"[..1] == "1"; }
    assert Scale(19, -1) == 1;
  }

  /** (bool) of a string is false exactly for "" and "0", so "false" is true. */
  lemma BooleanCastOfStrings(s: string)
    ensures ToBool(JStr(s)) <==> !(s == "" || s == "0")
    ensures ToBool(JStr("false")) && ToBool(JStr("true")) && !ToBool(JStr("0"))
  {
  }

  // ---------------------------------------------------------------------------
  // array_merge on string keys
  // ---------------------------------------------------------------------------

  /** `array_merge($args, $injected)` on string keys: each injected entry overwrites in place or is appended. */
  function MergeArgs<V>(args: seq<(string, V)>, injected: seq<(string, V)>): seq<(string, V)> {
    if injected == [] then args
    else Put(MergeArgs(args, injected[..|injected| - 1]), injected[|injected| - 1].0, injected[|injected| - 1].1)
  }

  /** A lookup in an array with one more entry whose key is new. */
  lemma {:induction false} GetSnoc<V>(a: seq<(string, V)>, e: (string, V), k: string)
    requires e.0 !in KeysOf(a)
    ensures Get(a + [e], k) == if k == e.0 then Some(e.1) else Get(a, k)
  {
    if a != [] {
      assert (a + [e])[1..] == a[1..] + [e];
      GetSnoc(a[1..], e, k);
    }
  }

  /** The last key of an array with distinct keys does not occur before it. */
  lemma LastKeyIsNew<V>(a: seq<(string, V)>)
    requires a != [] && UniqueKeys(a)
    ensures a[|a| - 1].0 !in KeysOf(a[..|a| - 1])
    ensures UniqueKeys(a[..|a| - 1])
    ensures a == a[..|a| - 1] + [a[|a| - 1]]
  {
    var init := a[..|a| - 1];
    forall j | 0 <= j < |init| ensures KeysOf(init)[j] != a[|a| - 1].0 {
      KeysOfIndex(init, j);
    }
  }

  /** Writing entries with distinct new keys appends them in order. */
  lemma {:induction false} MergeArgsOfNewKeys<V>(args: seq<(string, V)>, entries: seq<(string, V)>)
    requires UniqueKeys(entries)
    requires forall i :: 0 <= i < |entries| ==> entries[i].0 !in KeysOf(args)
    ensures MergeArgs(args, entries) == args + entries
  {
    if entries != [] {
      var init, last := entries[..|entries| - 1], entries[|entries| - 1];
      LastKeyIsNew(entries);
      forall i | 0 <= i < |init| ensures init[i].0 !in KeysOf(args) {
        assert init[i] == entries[i];
      }
      MergeArgsOfNewKeys(args, init);
      NewKeyOfBoth(last.0, args, init);
      PutNewKeyAppends(args + init, last.0, last.1);
      assert args + init + [last] == args + entries;
    }
  }

  lemma NewKeyOfBoth<V>(k: string, a: seq<(string, V)>, b: seq<(string, V)>)
    requires k !in KeysOf(a) && k !in KeysOf(b)
    ensures k !in KeysOf(a + b)
  {
    KeysOfAppend(a, b);
  }

  /**
   * array_merge keeps the existing arguments first; an injected key reads as the injected
   * entry, overwriting a same-key existing argument without error; any other key reads as before.
   */
  lemma {:induction false} MergeArgsLookup<V>(args: seq<(string, V)>, injected: seq<(string, V)>)
    requires UniqueKeys(injected)
    ensures KeysOf(args) <= KeysOf(MergeArgs(args, injected))
    ensures forall k :: Get(MergeArgs(args, injected), k) == if k in KeysOf(injected) then Get(injected, k) else Get(args, k)
  {
    if injected != [] {
      var init, last := injected[..|injected| - 1], injected[|injected| - 1];
      LastKeyIsNew(injected);
      MergeArgsLookup(args, init);
      var m := MergeArgs(args, init);
      KeysOfAppend(init, [last]);
      forall k ensures Get(MergeArgs(args, injected), k) == if k in KeysOf(injected) then Get(injected, k) else Get(args, k) {
        GetAfterPut(m, last.0, last.1, k);
        GetSnoc(init, last, k);
      }
    }
  }

  lemma KeysOfNamed<V>(a: seq<(string, V)>, names: seq<string>)
    requires |a| == |names|
    requires forall i :: 0 <= i < |a| ==> a[i].0 == names[i]
    ensures KeysOf(a) == names
  {
    forall i | 0 <= i < |a| ensures KeysOf(a)[i] == names[i] {
      KeysOfIndex(a, i);
    }
  }
}
