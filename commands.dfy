/**
 * The operator console parser (server.js:88-89): the trimmed line is cut at
 * each single space. The first piece is the verb; the other pieces, rejoined
 * with single spaces and lower-cased, are the target.
 */
module Commands {
  import opened Names

  /** The index of the first `' '` in `s`, or `|s|` when there is none. */
  function IndexOfSpace(s: string): (k: nat)
    ensures k <= |s|
    ensures ' ' !in s[..k]
    ensures k < |s| ==> s[k] == ' '
  {
    if s == [] || s[0] == ' ' then 0
    else
      var k := 1 + IndexOfSpace(s[1..]);
      assert s[..k] == [s[0]] + s[1..][..k - 1];
      k
  }

  /** `s.split(" ")`: the maximal space-free pieces between single spaces.
      There is always at least one piece; consecutive spaces give empty pieces. */
  function Split(s: string): (parts: seq<string>)
    ensures |parts| >= 1
    ensures forall i :: 0 <= i < |parts| ==> ' ' !in parts[i]
    decreases |s|
  {
    var k := IndexOfSpace(s);
    if k == |s| then [s] else [s[..k]] + Split(s[k + 1..])
  }

  /** `parts.join(" ")`. */
  function Join(parts: seq<string>): string {
    if |parts| == 0 then ""
    else if |parts| == 1 then parts[0]
    else parts[0] + " " + Join(parts[1..])
  }

  /** Joining the pieces of a split gives the string back. */
  lemma {:induction false} JoinSplit(s: string)
    ensures Join(Split(s)) == s
    decreases |s|
  {
    var k := IndexOfSpace(s);
    var parts := Split(s);
    if k == |s| {
      assert parts == [s];
    } else {
      var rest := Split(s[k + 1..]);
      assert parts == [s[..k]] + rest;
      assert parts[0] == s[..k] && parts[1..] == rest && |parts| >= 2;
      assert Join(parts) == s[..k] + " " + Join(rest);
      JoinSplit(s[k + 1..]);
      assert s == s[..k] + " " + s[k + 1..];
    }
  }

  /** The first space of a string that starts with a space-free piece and a space. */
  lemma IndexOfSpaceAfter(p: string, rest: string)
    requires ' ' !in p
    ensures IndexOfSpace(p + " " + rest) == |p|
  {
    var s := p + " " + rest;
    assert s[..|p|] == p;
    assert s[|p|] == ' ';
  }

  /** Splitting a join of space-free pieces gives the pieces back. */
  lemma {:induction false} SplitJoin(parts: seq<string>)
    requires |parts| >= 1
    requires forall i :: 0 <= i < |parts| ==> ' ' !in parts[i]
    ensures Split(Join(parts)) == parts
  {
    if |parts| == 1 {
      assert Join(parts) == parts[0];
      IndexOfSpaceNone(parts[0]);
      assert Split(parts[0]) == [parts[0]];
    } else {
      var p := parts[0];
      var tail := parts[1..];
      var rest := Join(tail);
      var s := p + " " + rest;
      assert Join(parts) == s;
      assert ' ' !in p;
      IndexOfSpaceAfter(p, rest);
      assert s[..|p|] == p;
      assert s[|p| + 1..] == rest;
      assert Split(s) == [p] + Split(rest);
      assert forall i :: 0 <= i < |tail| ==> ' ' !in tail[i] by {
        assert forall i :: 0 <= i < |tail| ==> tail[i] == parts[i + 1];
      }
      SplitJoin(tail);
      assert parts == [p] + tail;
    }
  }

  /** A console line: the command word and the lower-cased target name. */
  datatype Command = Command(verb: string, target: string)

  /** The parse of a console line (server.js:88-89). The verb is the trimmed
      line up to its first space; the target is everything after that space,
      lower-cased, inner spaces included; a line with no space has the empty
      target. */
  function ParseCommand(line: string): (c: Command)
    ensures var t := Trim(line); var k := IndexOfSpace(t);
      && c.verb == t[..k]
      && c.target == (if k < |t| then ToLower(t[k + 1..]) else "")
    ensures ' ' !in c.verb
  {
    var t := Trim(line);
    var parts := Split(t);
    SplitHeadTail(t);
    assert ' ' !in parts[0];
    Command(parts[0], ToLower(Join(parts[1..])))
  }

  /** The first piece of a split is the text before the first space, and the
      other pieces rejoined are the text after it. */
  lemma SplitHeadTail(s: string)
    ensures var k := IndexOfSpace(s);
      && Split(s)[0] == s[..k]
      && Join(Split(s)[1..]) == (if k < |s| then s[k + 1..] else "")
  {
    var k := IndexOfSpace(s);
    var parts := Split(s);
    if k < |s| {
      var rest := Split(s[k + 1..]);
      assert parts == [s[..k]] + rest;
      assert parts[0] == s[..k] && parts[1..] == rest;
      JoinSplit(s[k + 1..]);
    } else {
      assert parts == [s];
      assert s[..k] == s;
      assert parts[1..] == [];
    }
  }

  /** A line with no whitespace inside it. */
  predicate IsWord(w: string) {
    w != [] && forall i :: 0 <= i < |w| ==> !IsSpace(w[i])
  }

  /** A string without a space has its first space at its end. */
  lemma IndexOfSpaceNone(s: string)
    requires ' ' !in s
    ensures IndexOfSpace(s) == |s|
  {
    assert s[..|s|] == s;
  }

  /** A word contains no space. */
  lemma WordHasNoSpace(w: string)
    requires IsWord(w)
    ensures ' ' !in w
  {
    assert forall i :: 0 <= i < |w| ==> w[i] != ' ' by {
      assert IsSpace(' ');
    }
  }

  /** Trimming a word, a space and a trimmed key: only the space goes, and only
      when the key is empty. */
  lemma TrimSuggested(verb: string, key: string)
    requires IsWord(verb) && Trim(key) == key
    ensures Trim(verb + " " + key) == if key == [] then verb else verb + " " + key
  {
    var line := verb + " " + key;
    assert line[0] == verb[0];
    if key == [] {
      assert line[..|line| - 1] == verb;
      assert TrailingSpaces(line) == 1;
    } else {
      TrimFixedIff(key);
      assert line[|line| - 1] == key[|key| - 1];
      TrimFixedIff(line);
    }
  }

  /** The command line the server suggests when access is requested,
      `allow <key>` or `deny <key>` (server.js:48), parses back to that verb and
      exactly that key, for every display name. */
  lemma SuggestedCommandParses(verb: string, name: string)
    requires IsWord(verb)
    ensures ParseCommand(verb + " " + Canonical(name)) == Command(verb, Canonical(name))
  {
    var key := Canonical(name);
    var line := verb + " " + key;
    WordHasNoSpace(verb);
    TrimSuggested(verb, key);
    if key == [] {
      IndexOfSpaceNone(verb);
    } else {
      IndexOfSpaceAfter(verb, key);
      assert line[..|verb|] == verb;
      assert line[|verb| + 1..] == key;
    }
  }

}
