/** The string operations of Python the models need, with what they mean. */
module Strings {

  /** `s.split(sep)`: never empty. */
  function Split(s: string, sep: char): (parts: seq<string>)
    ensures parts != []
  {
    if s == "" then [""]
    else
      var rest := Split(s[1..], sep);
      if s[0] == sep then [""] + rest else [[s[0]] + rest[0]] + rest[1..]
  }

  /** `sep.join(parts)` */
  function Join(parts: seq<string>, sep: char): string {
    if parts == [] then ""
    else if |parts| == 1 then parts[0]
    else parts[0] + [sep] + Join(parts[1..], sep)
  }

  lemma JoinLonger(c: char, parts: seq<string>, sep: char)
    requires parts != []
    ensures Join([[c] + parts[0]] + parts[1..], sep) == [c] + Join(parts, sep)
  {
    var longer := [[c] + parts[0]] + parts[1..];
    assert longer[1..] == parts[1..];
    if |parts| > 1 {
      assert ([c] + parts[0]) + [sep] + Join(parts[1..], sep) == [c] + (parts[0] + [sep] + Join(parts[1..], sep));
    }
  }

  lemma {:induction false} JoinSplit(s: string, sep: char)
    ensures Join(Split(s, sep), sep) == s
  {
    if s != "" {
      JoinSplit(s[1..], sep);
      var rest := Split(s[1..], sep);
      if s[0] == sep {
        assert ([""] + rest)[1..] == rest;
      } else {
        JoinLonger(s[0], rest, sep);
      }
    }
  }

  lemma {:induction false} SplitPrefix(part: string, s: string, sep: char)
    requires sep !in part
    ensures Split(part + s, sep) == [part + Split(s, sep)[0]] + Split(s, sep)[1..]
  {
    if part == "" {
      assert part + s == s && part + Split(s, sep)[0] == Split(s, sep)[0];
      assert [Split(s, sep)[0]] + Split(s, sep)[1..] == Split(s, sep);
    } else {
      SplitPrefix(part[1..], s, sep);
      assert (part + s)[1..] == part[1..] + s;
      assert [part[0]] + (part[1..] + Split(s, sep)[0]) == part + Split(s, sep)[0];
    }
  }

  function Separators(s: string, sep: char): nat {
    if s == "" then 0 else Separators(s[1..], sep) + if s[0] == sep then 1 else 0
  }

  /** One part more than there are separators. */
  lemma {:induction false} SplitCount(s: string, sep: char)
    ensures |Split(s, sep)| == Separators(s, sep) + 1
  {
    if s != "" {
      SplitCount(s[1..], sep);
    }
  }

  predicate NoneHas(parts: seq<string>, sep: char) {
    forall i :: 0 <= i < |parts| ==> sep !in parts[i]
  }

  lemma {:induction false} SplitNoneHas(s: string, sep: char)
    ensures NoneHas(Split(s, sep), sep)
  {
    if s != "" {
      SplitNoneHas(s[1..], sep);
    }
  }

  lemma {:induction false} SplitJoin(parts: seq<string>, sep: char)
    requires parts != [] && NoneHas(parts, sep)
    ensures Split(Join(parts, sep), sep) == parts
  {
    if |parts| == 1 {
      SplitPrefix(parts[0], "", sep);
      assert parts[0] + "" == parts[0];
    } else {
      var rest := Join(parts[1..], sep);
      SplitJoin(parts[1..], sep);
      SplitPrefix(parts[0], [sep] + rest, sep);
      assert ([sep] + rest)[1..] == rest;
      assert parts[0] + ([sep] + rest) == parts[0] + [sep] + rest;
      assert parts[0] + "" == parts[0] && [parts[0]] + parts[1..] == parts;
    }
  }

  predicate HasAt(s: string, i: int, t: string) {
    0 <= i && i + |t| <= |s| && s[i..i + |t|] == t
  }

  /** `t in s` */
  predicate Contains(s: string, t: string) {
    exists i :: 0 <= i <= |s| && HasAt(s, i, t)
  }

  /** `s.rstrip(c)` */
  function Rstrip(s: string, c: char): string {
    if s != "" && s[|s| - 1] == c then Rstrip(s[..|s| - 1], c) else s
  }

  /** What is stripped is a run of the character, and all of it. */
  lemma {:induction false} RstripIs(s: string, c: char)
    ensures Rstrip(s, c) <= s && forall i :: |Rstrip(s, c)| <= i < |s| ==> s[i] == c
    ensures Rstrip(s, c) != "" ==> Rstrip(s, c)[|Rstrip(s, c)| - 1] != c
  {
    if s != "" && s[|s| - 1] == c {
      var front := s[..|s| - 1];
      RstripIs(front, c);
      assert forall i :: 0 <= i < |front| ==> s[i] == front[i];
    }
  }

  /** `s.startswith(t)` */
  predicate StartsWith(s: string, t: string) {
    t <= s
  }

  /** `s.rsplit(c, 1)` */
  function RsplitOnce(s: string, c: char): (parts: seq<string>)
    ensures 1 <= |parts| <= 2
  {
    if s == "" then [""]
    else
      var front, last := s[..|s| - 1], s[|s| - 1];
      if last == c then [front, ""]
      else
        var parts := RsplitOnce(front, c);
        if |parts| == 1 then [parts[0] + [last]] else [parts[0], parts[1] + [last]]
  }

  lemma {:induction false} RsplitAtLast(a: string, c: char, b: string)
    requires c !in b
    ensures RsplitOnce(a + [c] + b, c) == [a, b]
  {
    var s := a + [c] + b;
    if b == "" {
      assert s[..|s| - 1] == a;
    } else {
      var front := b[..|b| - 1];
      RsplitAtLast(a, c, front);
      assert s[..|s| - 1] == a + [c] + front && s[|s| - 1] == b[|b| - 1];
      assert front + [b[|b| - 1]] == b;
    }
  }

  /** `s.replace(t, '')` */
  function Remove(s: string, t: string): string
    requires t != ""
  {
    if s == "" then ""
    else if HasAt(s, 0, t) then Remove(s[|t|..], t)
    else [s[0]] + Remove(s[1..], t)
  }

  /** No occurrence of t begins inside of s where t follows it. */
  predicate FreeOf(s: string, t: string) {
    forall i :: 0 <= i < |s| ==> !HasAt(s + t, i, t)
  }

  lemma StillFree(s: string, t: string)
    requires s != "" && FreeOf(s, t)
    ensures FreeOf(s[1..], t)
  {
    forall i | 0 <= i < |s| - 1
      ensures !HasAt(s[1..] + t, i, t)
    {
      assert !HasAt(s + t, i + 1, t);
      assert (s + t)[i + 1..i + 1 + |t|] == (s[1..] + t)[i..i + |t|];
    }
  }

  /** Every occurrence is removed, with nothing else. */
  lemma {:induction false} RemoveNext(s: string, t: string, rest: string)
    requires t != "" && FreeOf(s, t)
    ensures Remove(s + t + rest, t) == s + Remove(rest, t)
  {
    var all := s + t + rest;
    if s == "" {
      assert all == t + rest;
      assert all[..|t|] == t && all[|t|..] == rest;
    } else {
      assert !HasAt(s + t, 0, t);
      assert all[..|t|] == (s + t)[..|t|];
      assert all[1..] == s[1..] + t + rest;
      StillFree(s, t);
      RemoveNext(s[1..], t, rest);
    }
  }

  lemma NotAt(s: string, i: nat, t: string, k: nat)
    requires k < |t| && (i + k < |s| ==> s[i + k] != t[k])
    ensures !HasAt(s, i, t)
  {
    if i + |t| <= |s| {
      assert s[i..i + |t|][k] == s[i + k];
    }
  }

  lemma AtAround(a: string, sep: char, b: string, t: string, i: nat)
    requires sep !in t && t != ""
    ensures HasAt(a + [sep] + b, i, t) <==> HasAt(a, i, t) || HasAt(b, i - |a| - 1, t)
  {
    var s := a + [sep] + b;
    if i + |t| <= |a| {
      assert s[i..i + |t|] == a[i..i + |t|];
    } else if i <= |a| {
      NotAt(s, i, t, |a| - i);
    } else if i + |t| <= |s| {
      assert s[i..i + |t|] == b[i - |a| - 1..i - |a| - 1 + |t|];
    }
  }

  /** Text without the separator is in one part or the other. */
  lemma ContainsAround(a: string, sep: char, b: string, t: string)
    requires sep !in t && t != ""
    ensures Contains(a + [sep] + b, t) <==> Contains(a, t) || Contains(b, t)
  {
    var s := a + [sep] + b;
    if i :| 0 <= i <= |s| && HasAt(s, i, t) {
      AtAround(a, sep, b, t, i);
    }
    if i :| 0 <= i <= |a| && HasAt(a, i, t) {
      AtAround(a, sep, b, t, i);
      assert HasAt(s, i, t);
    }
    if j :| 0 <= j <= |b| && HasAt(b, j, t) {
      AtAround(a, sep, b, t, |a| + 1 + j);
      assert HasAt(s, |a| + 1 + j, t);
    }
  }
}
