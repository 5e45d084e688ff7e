/**
 * Participant names and their canonical keys.
 *
 * A display name is turned into a registry key with `name.trim().toLowerCase()`
 * when access is requested (server.js:43); the disconnect handler uses only
 * `username.toLowerCase()` (server.js:73).
 */
module Names {

  /** The characters JavaScript's `String.prototype.trim` removes:
      ECMAScript WhiteSpace (including every Zs space) and LineTerminator. */
  predicate IsSpace(c: char) {
    || c == '\t' || c == '\n' || c == '\U{000B}' || c == '\U{000C}' || c == '\r'
    || c == ' ' || c == '\U{00A0}' || c == '\U{1680}'
    || ('\U{2000}' <= c <= '\U{200A}')
    || c == '\U{2028}' || c == '\U{2029}' || c == '\U{202F}' || c == '\U{205F}'
    || c == '\U{3000}' || c == '\U{FEFF}'
  }

  /** The length of the run of whitespace at the front of `s`. */
  function LeadingSpaces(s: string): (n: nat)
    ensures n <= |s|
    ensures forall i :: 0 <= i < n ==> IsSpace(s[i])
    ensures n < |s| ==> !IsSpace(s[n])
  {
    if s == [] || !IsSpace(s[0]) then 0 else 1 + LeadingSpaces(s[1..])
  }

  /** The length of the run of whitespace at the back of `s`. */
  function TrailingSpaces(s: string): (n: nat)
    ensures n <= |s|
    ensures forall i :: |s| - n <= i < |s| ==> IsSpace(s[i])
    ensures n < |s| ==> !IsSpace(s[|s| - 1 - n])
  {
    if s == [] || !IsSpace(s[|s| - 1]) then 0 else 1 + TrailingSpaces(s[..|s| - 1])
  }

  /** `s` without its leading whitespace. */
  function TrimStart(s: string): string {
    s[LeadingSpaces(s)..]
  }

  /** `s` without its trailing whitespace. */
  function TrimEnd(s: string): string {
    s[..|s| - TrailingSpaces(s)]
  }

  /** `s.trim()`: `s` without its leading and trailing whitespace. The result
      is the infix of `s` that starts after the leading run, everything after
      it is whitespace, and it neither starts nor ends with whitespace. */
  function Trim(s: string): (r: string)
    ensures LeadingSpaces(s) + |r| <= |s|
    ensures r == s[LeadingSpaces(s)..LeadingSpaces(s) + |r|]
    ensures forall i :: LeadingSpaces(s) + |r| <= i < |s| ==> IsSpace(s[i])
    ensures r == [] || (!IsSpace(r[0]) && !IsSpace(r[|r| - 1]))
  {
    TrimEnd(TrimStart(s))
  }

  /** A string is its own trim exactly when it neither starts nor ends with whitespace. */
  lemma TrimFixedIff(s: string)
    ensures Trim(s) == s <==> (s == [] || (!IsSpace(s[0]) && !IsSpace(s[|s| - 1])))
  {
    if s != [] && !IsSpace(s[0]) && !IsSpace(s[|s| - 1]) {
      assert LeadingSpaces(s) == 0;
      assert TrailingSpaces(s) == 0;
    }
  }

  /** Trimming twice is trimming once. */
  lemma TrimIdempotent(s: string)
    ensures Trim(Trim(s)) == Trim(s)
  {
    TrimFixedIff(Trim(s));
  }

  /** `c.toLowerCase()` on one character, for the ASCII letters. */
  function LowerChar(c: char): char {
    if 'A' <= c <= 'Z' then (c as int - 'A' as int + 'a' as int) as char else c
  }

  predicate IsUpper(c: char) {
    'A' <= c <= 'Z'
  }

  /** `s.toLowerCase()`: the same length, each character lowered, no upper-case letter left. */
  function ToLower(s: string): (r: string)
    ensures |r| == |s|
    ensures forall i :: 0 <= i < |s| ==> r[i] == LowerChar(s[i])
    ensures forall i :: 0 <= i < |r| ==> !IsUpper(r[i])
  {
    seq(|s|, i requires 0 <= i < |s| => LowerChar(s[i]))
  }

  /** Lower-casing twice is lower-casing once. */
  lemma ToLowerIdempotent(s: string)
    ensures ToLower(ToLower(s)) == ToLower(s)
  {
  }

  /** Lower-casing commutes with taking a slice. */
  lemma ToLowerSlice(s: string, lo: nat, hi: nat)
    requires lo <= hi <= |s|
    ensures ToLower(s[lo..hi]) == ToLower(s)[lo..hi]
  {
    var t := s[lo..hi];
    var a, b := ToLower(t), ToLower(s)[lo..hi];
    assert |a| == |t| == |b|;
    forall i | 0 <= i < |t| ensures a[i] == b[i] {
      assert t[i] == s[lo + i];
      assert a[i] == LowerChar(t[i]);
      assert b[i] == ToLower(s)[lo + i] == LowerChar(s[lo + i]);
    }
    assert a == b;
  }

  /** Lower-casing never turns whitespace into non-whitespace or back. */
  lemma LowerCharKeepsSpace(c: char)
    ensures IsSpace(LowerChar(c)) == IsSpace(c)
  {
  }

  /** Lower-casing keeps every character's whitespace class, so it finds the same runs to trim. */
  lemma {:induction false} LeadingSpacesToLower(s: string)
    ensures LeadingSpaces(ToLower(s)) == LeadingSpaces(s)
  {
    if s != [] {
      var u := ToLower(s);
      LowerCharKeepsSpace(s[0]);
      assert u[0] == LowerChar(s[0]);
      if IsSpace(s[0]) {
        ToLowerSlice(s, 1, |s|);
        LeadingSpacesToLower(s[1..]);
      }
    }
  }

  lemma {:induction false} TrailingSpacesToLower(s: string)
    ensures TrailingSpaces(ToLower(s)) == TrailingSpaces(s)
  {
    if s != [] {
      var u := ToLower(s);
      LowerCharKeepsSpace(s[|s| - 1]);
      assert u[|u| - 1] == LowerChar(s[|s| - 1]);
      if IsSpace(s[|s| - 1]) {
        ToLowerSlice(s, 0, |s| - 1);
        TrailingSpacesToLower(s[..|s| - 1]);
      }
    }
  }

  lemma TrimStartToLower(s: string)
    ensures TrimStart(ToLower(s)) == ToLower(TrimStart(s))
  {
    LeadingSpacesToLower(s);
    ToLowerSlice(s, LeadingSpaces(s), |s|);
  }

  lemma TrimEndToLower(s: string)
    ensures TrimEnd(ToLower(s)) == ToLower(TrimEnd(s))
  {
    TrailingSpacesToLower(s);
    ToLowerSlice(s, 0, |s| - TrailingSpaces(s));
  }

  /** Trimming and lower-casing can be done in either order. */
  lemma TrimToLowerCommute(s: string)
    ensures Trim(ToLower(s)) == ToLower(Trim(s))
  {
    TrimStartToLower(s);
    TrimEndToLower(TrimStart(s));
  }

  /** The registry key of a display name: `name.trim().toLowerCase()` (server.js:43).
      A key is already trimmed and already lower-case, so canonicalising it again
      gives it back. */
  function Canonical(name: string): (key: string)
    ensures |key| <= |name|
    ensures Trim(key) == key
    ensures ToLower(key) == key
    ensures forall i :: 0 <= i < |key| ==> !IsUpper(key[i])
  {
    TrimToLowerCommute(Trim(name));
    TrimIdempotent(name);
    ToLowerIdempotent(Trim(name));
    ToLower(Trim(name))
  }

  /** The key the disconnect handler deletes, `username.toLowerCase()` (server.js:73),
      is the key the name was registered under exactly when the name has no
      leading or trailing whitespace. */
  lemma DisconnectKeyMatchesIff(name: string)
    ensures ToLower(name) == Canonical(name) <==> Trim(name) == name
  {
    if ToLower(name) == Canonical(name) {
      assert |Trim(name)| == |name|;
      assert Trim(name) == name[LeadingSpaces(name)..LeadingSpaces(name) + |Trim(name)|];
    }
  }

}
