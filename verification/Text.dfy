/** Text: ASCII case and slash-separated parts. */
module Text {
  function LowerChar(c: char): char {
    if 'A' <= c <= 'Z' then (c - 'A') + 'a' else c
  }

  function Lower(s: string): (r: string)
    ensures |r| == |s| && forall i :: 0 <= i < |s| ==> r[i] == LowerChar(s[i])
  {
    if s == "" then "" else [LowerChar(s[0])] + Lower(s[1..])
  }

  function TrimLeft(s: string): string {
    if s != "" && s[0] == '/' then TrimLeft(s[1..]) else s
  }

  function TrimRight(s: string): string {
    if s != "" && s[|s| - 1] == '/' then TrimRight(s[..|s| - 1]) else s
  }

  function Trim(s: string): string { TrimRight(TrimLeft(s)) }

  /** Trimming takes away slashes only, and leaves none at either end. */
  lemma {:induction false} TrimmedRight(s: string)
    ensures TrimRight(s) <= s && (forall i :: |TrimRight(s)| <= i < |s| ==> s[i] == '/')
    ensures TrimRight(s) != "" ==> TrimRight(s)[|TrimRight(s)| - 1] != '/'
  {
    if s != "" && s[|s| - 1] == '/' { TrimmedRight(s[..|s| - 1]); }
  }

  lemma {:induction false} TrimmedLeft(s: string) returns (n: nat)
    ensures n <= |s| && TrimLeft(s) == s[n..] && (forall i :: 0 <= i < n ==> s[i] == '/')
    ensures n < |s| ==> s[n] != '/'
  {
    if s != "" && s[0] == '/' {
      var m := TrimmedLeft(s[1..]);
      n := m + 1;
    } else {
      n := 0;
    }
  }

  /** What is trimmed are all the slashes at both ends, and nothing else. */
  lemma TrimmedExactly(s: string) returns (from: nat, until: nat)
    ensures from <= until <= |s| && Trim(s) == s[from..until]
    ensures forall i :: 0 <= i < from || until <= i < |s| ==> s[i] == '/'
    ensures from < until ==> s[from] != '/' && s[until - 1] != '/'
  {
    from := TrimmedLeft(s);
    var rest := s[from..];
    TrimmedRight(rest);
    until := from + |TrimRight(rest)|;
    assert forall i :: until <= i < |s| ==> s[i] == rest[i - from];
    assert Trim(s) == rest[..until - from] == s[from..until];
    assert from < until ==> s[until - 1] == rest[until - 1 - from];
  }

  predicate EndsWith(s: string, suffix: string) { |suffix| <= |s| && s[|s| - |suffix|..] == suffix }

  /** `s.split("/")`: never empty, and no part holds a slash. */
  function Split(s: string): (parts: seq<string>)
    ensures |parts| > 0 && forall part :: part in parts ==> '/' !in part
  {
    if s == [] then [""]
    else
      var rest := Split(s[1..]);
      assert '/' !in rest[0];
      if s[0] == '/' then [""] + rest else [[s[0]] + rest[0]] + rest[1..]
  }

  function NonEmpty(parts: seq<string>): (r: seq<string>)
    ensures forall part :: part in r ==> part in parts && part != ""
  {
    if parts == [] then [] else (if parts[0] == "" then [] else [parts[0]]) + NonEmpty(parts[1..])
  }

  /** The non-empty parts of a path. */
  function Parts(s: string): seq<string> { NonEmpty(Split(s)) }

  function Join(parts: seq<string>): string {
    if parts == [] then "" else if |parts| == 1 then parts[0] else parts[0] + "/" + Join(parts[1..])
  }

  predicate NoEmptyParts(s: string) { s == "" || "" !in Split(s) }

  lemma {:induction false} JoinSplit(s: string)
    ensures Join(Split(s)) == s
  {
    if s != [] {
      var rest := Split(s[1..]);
      JoinSplit(s[1..]);
      if s[0] == '/' {
        assert ([""] + rest)[1..] == rest;
      } else {
        assert Split(s)[1..] == rest[1..];
        if |rest| == 1 {
          assert Split(s) == [[s[0]] + rest[0]];
        }
      }
      assert [s[0]] + s[1..] == s;
    }
  }

  lemma {:induction false} SplitPlain(part: string)
    requires '/' !in part
    ensures Split(part) == [part]
  {
    if part != [] {
      SplitPlain(part[1..]);
      assert [part[0]] + part[1..] == part;
    }
  }

  lemma {:induction false} SplitAtSlash(part: string, rest: string)
    requires '/' !in part
    ensures Split(part + "/" + rest) == [part] + Split(rest)
  {
    var s := part + "/" + rest;
    if part == [] {
      assert s[1..] == rest;
    } else {
      assert s[1..] == part[1..] + "/" + rest && s[0] == part[0];
      SplitAtSlash(part[1..], rest);
      var tail := Split(s[1..]);
      assert tail[0] == part[1..] && tail[1..] == Split(rest);
      assert [part[0]] + part[1..] == part;
    }
  }

  lemma {:induction false} SplitJoin(parts: seq<string>)
    requires parts != [] && forall part :: part in parts ==> '/' !in part
    ensures Split(Join(parts)) == parts
  {
    if |parts| == 1 {
      SplitPlain(parts[0]);
    } else {
      SplitJoin(parts[1..]);
      SplitAtSlash(parts[0], Join(parts[1..]));
    }
  }

  lemma {:induction false} NonEmptyAll(parts: seq<string>)
    requires "" !in parts
    ensures NonEmpty(parts) == parts
  {
    if parts != [] { NonEmptyAll(parts[1..]); }
  }

  /** Dropping empty parts drops at least the slashes beside them. */
  lemma {:induction false} JoinNonEmpty(parts: seq<string>)
    ensures |Join(NonEmpty(parts))| <= |Join(parts)|
    ensures NonEmpty(parts) != [] ==> parts != [] && (parts[0] == "" ==> |Join(NonEmpty(parts))| < |Join(parts)|)
  {
    if |parts| == 1 {
      assert NonEmpty(parts[1..]) == [];
    } else if |parts| > 1 {
      var rest := NonEmpty(parts[1..]);
      JoinNonEmpty(parts[1..]);
      if parts[0] == "" {
        assert NonEmpty(parts) == rest;
      } else {
        assert NonEmpty(parts) == [parts[0]] + rest && ([parts[0]] + rest)[1..] == rest;
      }
    }
  }
}
