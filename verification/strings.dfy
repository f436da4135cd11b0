/** The JavaScript string operations the generator relies on, stated over
    `seq<char>`: `includes`, `indexOf`, `replace` with a string pattern,
    `substring(1)`, `Array.prototype.join`, and lodash's case conversions. */
module Strings {
  import opened Results

  /** `p` occurs in `s` starting at index `i`. */
  predicate OccursAt(s: string, p: string, i: int) {
    0 <= i && i + |p| <= |s| && s[i..i + |p|] == p
  }

  /** `i` is the first index at which `p` occurs in `s`. */
  predicate FirstAt(s: string, p: string, i: int) {
    OccursAt(s, p, i) && forall j | 0 <= j < i :: !OccursAt(s, p, j)
  }

  /** JavaScript's `s.includes(p)`. */
  predicate Contains(s: string, p: string) {
    exists i | 0 <= i <= |s| - |p| :: OccursAt(s, p, i)
  }

  /** The first occurrence of `p` in `s` at or after index `k`. */
  function IndexFrom(s: string, p: string, k: nat): (r: Option<nat>)
    ensures r.Some? ==> k <= r.value && OccursAt(s, p, r.value)
    ensures r.Some? ==> forall j | k <= j < r.value :: !OccursAt(s, p, j)
    ensures r.None? ==> forall j | k <= j :: !OccursAt(s, p, j)
    decreases |s| - k
  {
    if k + |p| > |s| then None
    else if |p| == 0 || s[k..k + |p|] == p then Some(k)
    else IndexFrom(s, p, k + 1)
  }

  /** JavaScript's `s.indexOf(p)`, with `None` for -1. */
  function IndexOf(s: string, p: string): (r: Option<nat>)
    ensures r.Some? <==> Contains(s, p)
    ensures r.Some? ==> FirstAt(s, p, r.value)
  {
    var r := IndexFrom(s, p, 0);
    if r.Some? then r
    else
      assert forall i | 0 <= i <= |s| - |p| :: !OccursAt(s, p, i);
      r
  }

  /** JavaScript's `s.replace(p, "")` for a string pattern `p`: only the
      first occurrence is removed. */
  function RemoveFirst(s: string, p: string): (r: string)
    ensures !Contains(s, p) ==> r == s
    ensures Contains(s, p) ==> |r| == |s| - |p|
    ensures forall i | FirstAt(s, p, i) :: r == s[..i] + s[i + |p|..]
  {
    match IndexOf(s, p)
    case None => s
    case Some(i) =>
      assert forall j | FirstAt(s, p, j) :: j == i by {
        forall j | FirstAt(s, p, j) ensures j == i {
          FirstAtUnique(s, p, i, j);
        }
      }
      s[..i] + s[i + |p|..]
  }

  /** A string whose first character is missing from `s` does not occur in it. */
  lemma AbsentByFirstChar(s: string, p: string)
    requires |p| > 0 && p[0] !in s
    ensures !Contains(s, p)
  {
    forall i | 0 <= i <= |s| - |p|
      ensures !OccursAt(s, p, i)
    {
      assert s[i..i + |p|][0] == s[i];
    }
  }

  /** A string containing `p + q` contains `p`. */
  lemma ContainsPrefix(s: string, p: string, q: string)
    requires Contains(s, p + q)
    ensures Contains(s, p)
  {
    var i :| 0 <= i <= |s| - |p + q| && OccursAt(s, p + q, i);
    assert s[i..i + |p|] == s[i..i + |p + q|][..|p|] == (p + q)[..|p|] == p;
    assert OccursAt(s, p, i);
  }

  /** A string is found at its first occurrence when no earlier index holds its first character. */
  lemma FirstAtByFirstChar(s: string, p: string, i: nat)
    requires |p| > 0 && OccursAt(s, p, i)
    requires forall j | 0 <= j < i :: s[j] != p[0]
    ensures FirstAt(s, p, i)
  {
    forall j | 0 <= j < i
      ensures !OccursAt(s, p, j)
    {
      if j + |p| <= |s| {
        assert s[j..j + |p|][0] == s[j];
      }
    }
  }

  /** A pattern has at most one first occurrence. */
  lemma FirstAtUnique(s: string, p: string, i: int, j: int)
    requires FirstAt(s, p, i) && FirstAt(s, p, j)
    ensures i == j
  {
  }

  /** Removing a pattern that first occurs right after `a` gives back `a`. */
  lemma RemoveTrailing(a: string, p: string)
    requires FirstAt(a + p, p, |a|)
    ensures RemoveFirst(a + p, p) == a
  {
    assert (a + p)[..|a|] == a;
    assert (a + p)[|a| + |p|..] == [];
  }

  /** JavaScript's `s.substring(1)`: everything but the first character. */
  function DropFirst(s: string): (r: string)
    ensures |s| > 0 ==> |r| == |s| - 1 && forall i | 0 <= i < |r| :: r[i] == s[i + 1]
    ensures |s| == 0 ==> r == ""
  {
    if |s| == 0 then s else s[1..]
  }

  /** `s` with every occurrence of the character `c` removed, as
      `s.replace(/c/g, '')` does. */
  function RemoveAll(s: string, c: char): (r: string)
    ensures c !in r
    ensures forall x | x != c :: x in r <==> x in s
    ensures |r| <= |s|
    ensures c !in s ==> r == s
    ensures |s| == 1 ==> r == if s[0] == c then "" else s
    ensures multiset(r) == multiset(s)[c := 0]
  {
    if |s| == 0 then s
    else if s[0] == c then
      assert s == [s[0]] + s[1..];
      RemoveAll(s[1..], c)
    else
      assert s == [s[0]] + s[1..];
      [s[0]] + RemoveAll(s[1..], c)
  }

  /** Removing a character from a concatenation removes it from each part:
      together with the one-character case, this pins `RemoveAll` down to
      "the same text, in order, without `c`". */
  lemma {:induction false} RemoveAllAppend(a: string, b: string, c: char)
    ensures RemoveAll(a + b, c) == RemoveAll(a, c) + RemoveAll(b, c)
    decreases |a|
  {
    if |a| > 0 {
      assert (a + b)[1..] == a[1..] + b;
      RemoveAllAppend(a[1..], b, c);
    } else {
      assert a + b == b;
    }
  }

  /** JavaScript's `parts.join(sep)`. */
  function Join(parts: seq<string>, sep: string): (r: string)
    ensures |parts| == 0 ==> r == ""
    ensures |parts| == 1 ==> r == parts[0]
  {
    if |parts| == 0 then ""
    else if |parts| == 1 then parts[0]
    else parts[0] + sep + Join(parts[1..], sep)
  }

  /** Joining two non-empty lists is joining each and putting the separator
      between them. */
  lemma {:induction false} JoinAppend(a: seq<string>, b: seq<string>, sep: string)
    requires |a| > 0 && |b| > 0
    ensures Join(a + b, sep) == Join(a, sep) + sep + Join(b, sep)
  {
    if |a| == 1 {
      assert (a + b)[0] == a[0] && (a + b)[1..] == b;
    } else {
      JoinAppend(a[1..], b, sep);
      assert (a + b)[0] == a[0] && (a + b)[1..] == a[1..] + b;
    }
  }

  /** The pieces laid end to end: a template literal's text and
      substitutions in order. */
  function Concat(pieces: seq<string>): string {
    if |pieces| == 0 then "" else pieces[0] + Concat(pieces[1..])
  }

  /** Text found in one piece is found in the pieces laid end to end. */
  lemma {:induction false} ConcatContains(pieces: seq<string>, i: nat, p: string)
    requires i < |pieces| && Contains(pieces[i], p)
    ensures Contains(Concat(pieces), p)
  {
    if i == 0 {
      ContainsWithin("", pieces[0], Concat(pieces[1..]), p);
      assert "" + pieces[0] + Concat(pieces[1..]) == Concat(pieces);
    } else {
      ConcatContains(pieces[1..], i - 1, p);
      ContainsWithin(pieces[0], Concat(pieces[1..]), "", p);
      assert pieces[0] + Concat(pieces[1..]) + "" == Concat(pieces);
    }
  }

  /** Text found inside the middle of a string is found in the string. */
  lemma ContainsWithin(x: string, t: string, y: string, p: string)
    requires Contains(t, p)
    ensures Contains(x + t + y, p)
  {
    var i :| 0 <= i <= |t| - |p| && OccursAt(t, p, i);
    var s := x + t + y;
    assert s[|x| + i..|x| + i + |p|] == t[i..i + |p|];
    assert OccursAt(s, p, |x| + i);
  }

  /** Every part of a join is found in the joined text. */
  lemma {:induction false} JoinContains(parts: seq<string>, sep: string, i: nat)
    requires i < |parts|
    ensures Contains(Join(parts, sep), parts[i])
  {
    var p := parts[i];
    if |parts| == 1 {
      assert OccursAt(p, p, 0);
    } else if i == 0 {
      ContainsWithin("", p, sep + Join(parts[1..], sep), p) by {
        assert OccursAt(p, p, 0);
      }
      assert "" + p + (sep + Join(parts[1..], sep)) == Join(parts, sep);
    } else {
      JoinContains(parts[1..], sep, i - 1);
      ContainsWithin(parts[0] + sep, Join(parts[1..], sep), "", p);
      assert parts[0] + sep + Join(parts[1..], sep) + "" == Join(parts, sep);
    }
  }

  /** ASCII upper-casing of one character. */
  function UpperChar(c: char): char {
    if 'a' <= c <= 'z' then (c as int - 32) as char else c
  }

  /** ASCII lower-casing of one character. */
  function LowerChar(c: char): char {
    if 'A' <= c <= 'Z' then (c as int + 32) as char else c
  }

  /** lodash's `upperFirst`: the first character upper-cased, the rest kept. */
  function UpperFirst(s: string): (r: string)
    ensures |r| == |s| && (|s| > 0 ==> r[0] == UpperChar(s[0]) && r[1..] == s[1..])
  {
    if |s| == 0 then s else [UpperChar(s[0])] + s[1..]
  }

  /** Upper-casing the first character brings in no character that is not
      an upper-case letter. */
  lemma UpperFirstKeepsAbsent(s: string, c: char)
    requires c !in s && !('A' <= c <= 'Z')
    ensures c !in UpperFirst(s)
  {
    if |s| > 0 {
      var r := UpperFirst(s);
      forall i | 0 <= i < |r|
        ensures r[i] != c
      {
        if i > 0 {
          assert r[i] == r[1..][i - 1] == s[i];
        }
      }
    }
  }

  /** lodash's `lowerFirst`: the first character lower-cased, the rest kept. */
  function LowerFirst(s: string): (r: string)
    ensures |r| == |s| && (|s| > 0 ==> r[0] == LowerChar(s[0]) && r[1..] == s[1..])
  {
    if |s| == 0 then s else [LowerChar(s[0])] + s[1..]
  }

  /** `upperFirst` and `lowerFirst` undo each other's change to the first
      letter: each recovers the other's result from its own. */
  lemma CaseFirstRoundTrip(s: string)
    ensures LowerFirst(UpperFirst(s)) == LowerFirst(s)
    ensures UpperFirst(LowerFirst(s)) == UpperFirst(s)
  {
    if |s| > 0 {
      assert LowerFirst(UpperFirst(s))[1..] == s[1..] == LowerFirst(s)[1..];
      assert UpperFirst(LowerFirst(s))[1..] == s[1..] == UpperFirst(s)[1..];
    }
  }

  /** lodash's word-splitting conversions (`kebabCase`, `camelCase`,
      `lowerCase`). Their Unicode word rules are not modelled: the caller
      supplies them. */
  datatype Casing = Casing(
    kebab: string -> string,
    camel: string -> string,
    lower: string -> string)
}
