/**
 * Attribute-name derivation used by the service table: the camel-case to
 * snake_case rewrite `_underscore` and the stripping of an interface-style
 * leading `I`.  Restricted to ASCII: `[A-Z]`, `[a-z]` and `[0-9]` in the
 * rewrite pattern are ASCII ranges, and only ASCII letters are lowered.
 */
module Naming {

  predicate IsUpper(c: char) { 'A' <= c <= 'Z' }
  predicate IsLower(c: char) { 'a' <= c <= 'z' }
  predicate IsDigit(c: char) { '0' <= c <= '9' }

  /** ASCII lower-casing of one character. */
  function ToLower(c: char): (d: char)
    ensures !IsUpper(d)
    ensures !IsUpper(c) ==> d == c
  {
    if IsUpper(c) then (c as int + 32) as char else c
  }

  /** `str.lower()` on ASCII: every character lowered in place. */
  function Lower(s: string): string
  {
    seq(|s|, k requires 0 <= k < |s| => ToLower(s[k]))
  }

  /**
   * The pattern `((?<=[a-z0-9])[A-Z]|(?!^)[A-Z](?=[a-z]))` matches the single
   * character at index i exactly when it is an upper-case letter that is not
   * the first character and is preceded by `[a-z0-9]` or followed by `[a-z]`.
   * Every match is one character wide and the look-arounds read the original
   * string, so the positions are tested independently.
   */
  predicate IsBoundary(s: string, i: nat)
    requires i < |s|
  {
    IsUpper(s[i]) && i > 0 &&
    (IsLower(s[i - 1]) || IsDigit(s[i - 1]) || (i + 1 < |s| && IsLower(s[i + 1])))
  }

  /** The substitution `sub(r'_\1', s)` applied to the suffix of s from index i. */
  function Substitute(s: string, i: nat): string
    requires i <= |s|
    decreases |s| - i
  {
    if i == |s| then []
    else (if IsBoundary(s, i) then ['_', s[i]] else [s[i]]) + Substitute(s, i + 1)
  }

  /** `_underscore(name)`: substitute, then lower-case the whole result. */
  function Underscore(s: string): string
  {
    Lower(Substitute(s, 0))
  }

  /** Number of boundary positions among the first n characters of s. */
  function CountBoundaries(s: string, n: nat): nat
    requires n <= |s|
  {
    if n == 0 then 0 else CountBoundaries(s, n - 1) + (if IsBoundary(s, n - 1) then 1 else 0)
  }

  /** `_is_iface_name.match(name)` for the pattern `^I[A-Z].*`. */
  predicate IsIfaceName(name: string)
  {
    |name| >= 2 && name[0] == 'I' && IsUpper(name[1])
  }

  /** The attribute name `_register_service` derives from an interface's `__name__`. */
  function AttrName(ifaceName: string): string
  {
    Underscore(if IsIfaceName(ifaceName) then ifaceName[1..] else ifaceName)
  }

  // ---------------------------------------------------------------------
  // Properties of the substitution

  lemma {:induction false} SubstituteLength(s: string, i: nat)
    requires i <= |s|
    ensures |Substitute(s, i)| == |s| - i + CountBoundaries(s, |s|) - CountBoundaries(s, i)
    decreases |s| - i
  {
    if i < |s| {
      SubstituteLength(s, i + 1);
      assert CountBoundaries(s, i + 1) == CountBoundaries(s, i) + (if IsBoundary(s, i) then 1 else 0);
    }
  }

  lemma {:induction false} CountBoundariesMonotone(s: string, m: nat, n: nat)
    requires m <= n <= |s|
    ensures CountBoundaries(s, m) <= CountBoundaries(s, n)
    decreases n - m
  {
    if m < n {
      CountBoundariesMonotone(s, m, n - 1);
    }
  }

  /**
   * Character j of the input lands at offset p of Substitute(s, i), where p
   * counts the input characters and the inserted underscores before it; an
   * inserted underscore sits right before it when j is a boundary.
   */
  lemma {:induction false} SubstituteAt(s: string, i: nat, j: nat)
    requires i <= j < |s|
    ensures var p := j - i + CountBoundaries(s, j + 1) - CountBoundaries(s, i);
            CountBoundaries(s, i) <= CountBoundaries(s, j + 1) &&
            p < |Substitute(s, i)| && Substitute(s, i)[p] == s[j] &&
            (IsBoundary(s, j) ==> p >= 1 && Substitute(s, i)[p - 1] == '_')
    decreases |s| - i
  {
    CountBoundariesMonotone(s, i, j + 1);
    var head := if IsBoundary(s, i) then ['_', s[i]] else [s[i]];
    assert Substitute(s, i) == head + Substitute(s, i + 1);
    if i == j {
      assert CountBoundaries(s, j + 1) - CountBoundaries(s, i) == |head| - 1;
    } else {
      SubstituteAt(s, i + 1, j);
      assert CountBoundaries(s, i + 1) == CountBoundaries(s, i) + |head| - 1;
    }
  }

  /** Without upper-case letters there are no boundaries and nothing is inserted. */
  lemma {:induction false} SubstituteNoUpper(s: string, i: nat)
    requires i <= |s|
    requires forall k :: 0 <= k < |s| ==> !IsUpper(s[k])
    ensures Substitute(s, i) == s[i..]
    decreases |s| - i
  {
    if i < |s| {
      SubstituteNoUpper(s, i + 1);
      assert s[i..] == [s[i]] + s[i + 1..];
    }
  }

  lemma LowerConcat(a: string, b: string)
    ensures Lower(a + b) == Lower(a) + Lower(b)
  {
  }

  // ---------------------------------------------------------------------
  // Properties of _underscore

  /** The output is as long as the input plus one per boundary. */
  lemma UnderscoreLength(s: string)
    ensures |Underscore(s)| == |s| + CountBoundaries(s, |s|)
  {
    SubstituteLength(s, 0);
  }

  /**
   * Input character j appears lower-cased at offset j + (boundaries up to and
   * including j) of the output, immediately preceded by an inserted `_` when j
   * is a boundary.  With UnderscoreLength this fixes every output character.
   */
  lemma UnderscoreAt(s: string, j: nat)
    requires j < |s|
    ensures var p := j + CountBoundaries(s, j + 1);
            p < |Underscore(s)| && Underscore(s)[p] == ToLower(s[j]) &&
            (IsBoundary(s, j) ==> Underscore(s)[p - 1] == '_')
  {
    SubstituteAt(s, 0, j);
  }

  /** No leading underscore is added: the first output character is the lowered first input character. */
  lemma UnderscoreFirst(s: string)
    requires |s| > 0
    ensures |Underscore(s)| > 0 && Underscore(s)[0] == ToLower(s[0])
  {
    UnderscoreAt(s, 0);
  }

  /** The output contains no upper-case ASCII letter. */
  lemma UnderscoreNoUpper(s: string)
    ensures forall k :: 0 <= k < |Underscore(s)| ==> !IsUpper(Underscore(s)[k])
  {
  }

  /** A string without upper-case letters comes back unchanged. */
  lemma UnderscoreNoUpperUnchanged(s: string)
    requires forall k :: 0 <= k < |s| ==> !IsUpper(s[k])
    ensures Underscore(s) == s
  {
    SubstituteNoUpper(s, 0);
  }

  /** Applying the rewrite twice is the same as applying it once. */
  lemma UnderscoreIdempotent(s: string)
    ensures Underscore(Underscore(s)) == Underscore(s)
  {
    UnderscoreNoUpper(s);
    UnderscoreNoUpperUnchanged(Underscore(s));
  }

  lemma SubstituteServiceTwo()
    ensures Substitute("ServiceTwo", 0) == "Service_Two"
  {
    assert Substitute("ServiceTwo", 8) == "wo";
    assert Substitute("ServiceTwo", 5) == "ce_Two";
    assert Substitute("ServiceTwo", 2) == "rvice_Two";
  }

  lemma UnderscoreServiceTwo()
    ensures Underscore("ServiceTwo") == "service_two"
  {
    SubstituteServiceTwo();
    LowerServiceTwo();
  }

  lemma LowerServiceTwo()
    ensures Lower("Service_Two") == "service_two"
  {
  }

  lemma SubstituteHttpServer()
    ensures Substitute("HTTPServer", 0) == "HTTP_Server"
  {
    assert Substitute("HTTPServer", 8) == "er";
    assert Substitute("HTTPServer", 5) == "erver";
    assert Substitute("HTTPServer", 2) == "TP_Server";
  }

  lemma UnderscoreHttpServer()
    ensures Underscore("HTTPServer") == "http_server"
  {
    SubstituteHttpServer();
    LowerHttpServer();
  }

  lemma LowerHttpServer()
    ensures Lower("HTTP_Server") == "http_server"
  {
  }

  lemma SubstituteFooBarService()
    ensures Substitute("FooBarService", 0) == "Foo_Bar_Service"
  {
    assert Substitute("FooBarService", 11) == "ce";
    assert Substitute("FooBarService", 8) == "rvice";
    assert Substitute("FooBarService", 5) == "r_Service";
    assert Substitute("FooBarService", 2) == "o_Bar_Service";
  }

  lemma UnderscoreFooBarService()
    ensures Underscore("FooBarService") == "foo_bar_service"
  {
    SubstituteFooBarService();
    LowerFooBarService();
  }

  lemma LowerFooBarService()
    ensures Lower("Foo_Bar_Service") == "foo_bar_service"
  {
  }

  // ---------------------------------------------------------------------
  // Properties of the interface-prefix stripping

  /** Past index 0 the boundary test sees the same neighbours after dropping the first character. */
  lemma {:induction false} SubstituteShift(n: string, j: nat)
    requires 1 <= j <= |n| - 1
    ensures Substitute(n, j + 1) == Substitute(n[1..], j)
    decreases |n| - j
  {
    var t := n[1..];
    if j < |t| {
      assert IsBoundary(n, j + 1) == IsBoundary(t, j);
      SubstituteShift(n, j + 1);
    }
  }

  /**
   * For an interface-style name the derived attribute name is what `_underscore`
   * gives for the whole name, minus the leading "i" and the underscore that
   * the rewrite would put after it when the next letters start a word.
   */
  lemma AttrNameStripsPrefix(n: string)
    requires IsIfaceName(n)
    ensures Underscore(n) == (if |n| > 2 && IsLower(n[2]) then "i_" else "i") + AttrName(n)
  {
    var t := n[1..];
    assert !IsBoundary(n, 0) && !IsBoundary(t, 0);
    assert IsBoundary(n, 1) <==> |n| > 2 && IsLower(n[2]);
    SubstituteShift(n, 1);
    var rest := Substitute(n, 2);
    assert Substitute(t, 0) == [t[0]] + Substitute(t, 1);
    assert Substitute(n, 0) == (if IsBoundary(n, 1) then ['I', '_'] else ['I']) + Substitute(t, 0);
    LowerConcat(if IsBoundary(n, 1) then ['I', '_'] else ['I'], Substitute(t, 0));
  }

  /** An interface-style name never yields a name starting with the stripped "i". */
  lemma AttrNameIfaceFirst(n: string)
    requires IsIfaceName(n)
    ensures |AttrName(n)| > 0 && AttrName(n)[0] == ToLower(n[1])
  {
    UnderscoreFirst(n[1..]);
  }

  /** The interface-style example: the leading "I" is dropped before the rewrite. */
  lemma AttrNameIServiceTwo()
    ensures AttrName("IServiceTwo") == "service_two"
  {
    var n := "IServiceTwo";
    assert IsIfaceName(n);
    assert n[1..] == "ServiceTwo";
    UnderscoreServiceTwo();
  }

  lemma LowerInterface()
    ensures Lower("Interface") == "interface"
  {
  }

  /** zope's base `Interface` is not interface-style ('n' is lower case) and keeps its name. */
  lemma AttrNameBaseInterface()
    ensures AttrName("Interface") == "interface"
  {
    assert !IsIfaceName("Interface");
    assert Substitute("Interface", 0) == "Interface";
    LowerInterface();
  }
}
