/**
 * The few PHP builtins the controller relies on, stated over Dafny values:
 * PHP arrays as ordered key/value entries, strtolower, ucfirst, removing one
 * character with str_replace, empty() on a string, array_change_key_case and
 * isset on an array element.
 */
module Php {

  /** A PHP array key: an integer or a (non-numeric) string. */
  datatype Key = IntKey(i: int) | StrKey(s: string)

  /**
   * A PHP value as it reaches the controller: JSON-decoded bodies and query
   * strings hold nothing else. An array keeps its entries in insertion order.
   */
  datatype Value =
    | Null
    | Bool(b: bool)
    | Int(i: int)
    | Str(s: string)
    | Arr(entries: seq<(Key, Value)>)

  type Entry = (Key, Value)

  predicate IsUpper(c: char) { 'A' <= c <= 'Z' }

  predicate IsLower(c: char) { 'a' <= c <= 'z' }

  predicate IsLetter(c: char) { IsUpper(c) || IsLower(c) }

  function LowerChar(c: char): char
  {
    if IsUpper(c) then (c as int + 32) as char else c
  }

  function UpperChar(c: char): char
  {
    if IsLower(c) then (c as int - 32) as char else c
  }

  /** strtolower: one character out for each character in. */
  function ToLower(s: string): (r: string)
    ensures |r| == |s|
  {
    if s == [] then [] else [LowerChar(s[0])] + ToLower(s[1..])
  }

  /** strtolower changes only the ASCII capitals, and leaves none. */
  lemma {:induction false} ToLowerAt(s: string)
    ensures forall i :: 0 <= i < |s| ==> ToLower(s)[i] == LowerChar(s[i]) && !IsUpper(ToLower(s)[i])
  {
    if s != [] {
      ToLowerAt(s[1..]);
    }
  }

  /**
   * ucfirst: a lower-case ASCII first letter becomes its capital; every other
   * character, and any other first character, stays as it is.
   */
  function UcFirst(s: string): (r: string)
    ensures |r| == |s|
    ensures forall i :: 1 <= i < |s| ==> r[i] == s[i]
    ensures |s| > 0 && IsLower(s[0]) ==> r[0] == UpperChar(s[0]) && IsUpper(r[0])
    ensures |s| > 0 && !IsLower(s[0]) ==> r[0] == s[0]
  {
    if s == [] then s else [UpperChar(s[0])] + s[1..]
  }

  /** str_replace(c, '', s): every occurrence of c removed, nothing else touched. */
  function Without(s: string, c: char): (r: string)
    ensures c !in r
    ensures forall x :: x != c ==> multiset(r)[x] == multiset(s)[x]
    ensures |s| > 0 && s[0] != c ==> |r| > 0 && r[0] == s[0]
    ensures |r| <= |s|
  {
    if s == [] then []
    else
      assert s == [s[0]] + s[1..];
      (if s[0] == c then [] else [s[0]]) + Without(s[1..], c)
  }

  /** Without works piecewise, so the characters it keeps stay in their order. */
  lemma {:induction false} WithoutAppend(a: string, b: string, c: char)
    ensures Without(a + b, c) == Without(a, c) + Without(b, c)
  {
    if a == [] {
      assert a + b == b;
    } else {
      assert (a + b)[0] == a[0];
      assert (a + b)[1..] == a[1..] + b;
      WithoutAppend(a[1..], b, c);
      var h := if a[0] == c then [] else [a[0]];
      calc {
        Without(a + b, c);
        h + Without(a[1..] + b, c);
        h + (Without(a[1..], c) + Without(b, c));
        (h + Without(a[1..], c)) + Without(b, c);
        Without(a, c) + Without(b, c);
      }
    }
  }

  /** A string without the character is left exactly as it is. */
  lemma {:induction false} WithoutAbsent(s: string, c: char)
    requires c !in s
    ensures Without(s, c) == s
  {
    if s != [] {
      WithoutAbsent(s[1..], c);
    }
  }

  /** Every character left by Without occurs in its input. */
  lemma WithoutFrom(s: string, c: char, i: nat)
    requires i < |Without(s, c)|
    ensures Without(s, c)[i] in s
  {
    var r := Without(s, c);
    var x := r[i];
    assert x in multiset(r);
    assert multiset(s)[x] == multiset(r)[x];
  }

  /** PHP's empty() on a string: both "" and "0" count as empty. */
  function IsEmptyString(s: string): (empty: bool)
    ensures empty <==> |s| <= 1 && forall i :: 0 <= i < |s| ==> s[i] == '0'
  {
    s == "" || s == "0"
  }

  /** A key after array_change_key_case(..., CASE_LOWER): integer keys stay. */
  function LowerKey(k: Key): Key
  {
    match k
    case StrKey(s) => StrKey(ToLower(s))
    case IntKey(_) => k
  }

  /**
   * array_change_key_case(a, CASE_LOWER): the entries in order, with string
   * keys lower-cased; when two keys collide the later entry wins.
   */
  function ChangeKeyCaseLower(a: seq<Entry>): (m: map<Key, Value>)
    ensures forall k :: k in m <==> exists i :: 0 <= i < |a| && LowerKey(a[i].0) == k
    decreases |a|
  {
    if a == [] then map[]
    else
      var p := a[..|a| - 1];
      assert forall i :: 0 <= i < |p| ==> p[i] == a[i];
      ChangeKeyCaseLower(p)[LowerKey(a[|a| - 1].0) := a[|a| - 1].1]
  }

  /** The value stored under a lowered key is that of the last entry carrying it. */
  lemma {:induction false} ChangeKeyCaseLast(a: seq<Entry>, i: nat)
    requires i < |a|
    requires forall j :: i < j < |a| ==> LowerKey(a[j].0) != LowerKey(a[i].0)
    ensures LowerKey(a[i].0) in ChangeKeyCaseLower(a)
    ensures ChangeKeyCaseLower(a)[LowerKey(a[i].0)] == a[i].1
    decreases |a|
  {
    if i < |a| - 1 {
      var p := a[..|a| - 1];
      assert p[i] == a[i];
      forall j | i < j < |p| ensures LowerKey(p[j].0) != LowerKey(p[i].0) {
        assert p[j] == a[j];
      }
      ChangeKeyCaseLast(p, i);
    }
  }

  /** isset($m[$k]): false for a missing key and for a key holding null. */
  function Isset(m: map<Key, Value>, k: Key): (present: bool)
    ensures present ==> k in m
    ensures k in m ==> (present <==> !m[k].Null?)
  {
    k in m && m[k] != Null
  }
}
