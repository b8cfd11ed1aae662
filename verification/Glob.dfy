/** Glob patterns (lithops/libs/globber/globber.py): the matcher against what the documentation
    of `match` says a pattern means. */
module Glob {
  import opened Chunks
  import opened StarPatterns
  import opened Strings

  // ----- Names

  datatype NameToken = AnyChar | Lit(c: char) | Never

  predicate CharFits(t: NameToken, c: char) {
    t.AnyChar? || t == Lit(c)
  }

  /** A name pattern's tokens; a final backslash matches nothing. */
  function NameTokens(p: string): seq<Token<NameToken>> {
    if p == "" then []
    else if p[0] == '*' then [Star] + NameTokens(p[1..])
    else if p[0] == '?' then [One(AnyChar)] + NameTokens(p[1..])
    else if p[0] == '\\' then
      if |p| >= 2 then [One(Lit(p[1]))] + NameTokens(p[2..]) else [One(Never)]
    else [One(Lit(p[0]))] + NameTokens(p[1..])
  }

  predicate MatchComponent(p: string, f: string)
    decreases |p| + |f|
  {
    if |p| == 0 && |f| == 0 then true
    else if |p| == 0 then false
    else if |f| == 0 then p == "*"
    else if p[0] == '*' then MatchComponent(p, f[1..]) || MatchComponent(p[1..], f)
    else if p[0] == '?' then MatchComponent(p[1..], f[1..])
    else if p[0] == '\\' then |p| >= 2 && p[1] == f[0] && MatchComponent(p[2..], f[1..])
    else if p[0] != f[0] then false
    else MatchComponent(p[1..], f[1..])
  }

  lemma {:induction false} MatchComponentTokens(p: string, f: string)
    ensures MatchComponent(p, f) <==> Matches(CharFits, NameTokens(p), f)
    decreases |p| + |f|
  {
    if p == "" {
    } else if f == "" {
      assert p == "*" <==> p[0] == '*' && p[1..] == "";
    } else if p[0] == '*' {
      MatchComponentTokens(p, f[1..]);
      MatchComponentTokens(p[1..], f);
      assert NameTokens(p)[1..] == NameTokens(p[1..]);
    } else if p[0] == '\\' && |p| >= 2 {
      MatchComponentTokens(p[2..], f[1..]);
      assert NameTokens(p)[1..] == NameTokens(p[2..]);
    } else if p[0] != '\\' {
      MatchComponentTokens(p[1..], f[1..]);
      assert NameTokens(p)[1..] == NameTokens(p[1..]);
    }
  }

  /** What a name pattern means. */
  ghost predicate NameMeans(p: string, name: string) {
    Means(CharFits, NameTokens(p), name)
  }

  /** On names the matcher is exact for every pattern that does not end in two stars. */
  lemma NameExact(p: string, name: string)
    requires !EndsInTwoStars(NameTokens(p))
    ensures MatchComponent(p, name) <==> NameMeans(p, name)
  {
    MatchComponentTokens(p, name);
    ExactUnlessTwoStars(CharFits, NameTokens(p), name);
  }

  /** No lone backslash at the end: only such a pattern means no name at all. */
  predicate Closed(p: string) {
    One(Never) !in NameTokens(p)
  }

  lemma {:induction false} TokensFit(p: string)
    ensures Satisfiable(CharFits, NameTokens(p)) <==> Closed(p)
    ensures NameTokens(p) != [] && NameTokens(p)[|NameTokens(p)| - 1].Star? ==> Closed(p)
    decreases |p|
  {
    var ts := NameTokens(p);
    if p != "" {
      var k := if p[0] == '\\' && |p| >= 2 then 2 else 1;
      var rest := NameTokens(p[k..]);
      TokensFit(p[k..]);
      assert ts == [ts[0]] + rest;
      OneTokenFits(ts[0]);
      SatisfiableFront(CharFits, ts[0], rest);
    }
  }

  lemma OneTokenFits(t: Token<NameToken>)
    ensures t.One? ==> (FitsSome(CharFits, t.value) <==> t != One(Never))
  {
    if t.One? && t.value.AnyChar? {
      assert CharFits(t.value, 'a');
    } else if t.One? && t.value.Lit? {
      assert CharFits(t.value, t.value.c);
    }
  }

  ghost predicate NameIsExact(p: string) {
    forall name :: MatchComponent(p, name) <==> NameMeans(p, name)
  }

  /** For which name patterns the matcher is exact on all names. */
  lemma NameExactIff(p: string)
    ensures NameIsExact(p) <==> !EndsInTwoStars(NameTokens(p))
  {
    ExactIff(CharFits, NameTokens(p));
    TokensFit(p);
    forall name
      ensures MatchComponent(p, name) <==> Matches(CharFits, NameTokens(p), name)
    {
      MatchComponentTokens(p, name);
    }
  }

  lemma NameSound(p: string, name: string)
    requires MatchComponent(p, name)
    ensures NameMeans(p, name)
  {
    MatchComponentTokens(p, name);
    Sound(CharFits, NameTokens(p), name);
    var pieces :| DividesStrictly(CharFits, NameTokens(p), name, pieces);
  }

  // ----- Paths

  function PathToken(p: string): Token<string> {
    if p == "**" then Star else One(p)
  }

  function PathTokens(ps: seq<string>): seq<Token<string>> {
    if ps == [] then [] else [PathToken(ps[0])] + PathTokens(ps[1..])
  }

  predicate MatchComponents(ps: seq<string>, fs: seq<string>)
    decreases |ps| + |fs|
  {
    if |ps| == 0 && |fs| == 0 then true
    else if |ps| == 0 then false
    else if |fs| == 0 then |ps| == 1 && ps[0] == "**"
    else if ps[0] == "**" then MatchComponents(ps, fs[1..]) || MatchComponents(ps[1..], fs)
    else MatchComponent(ps[0], fs[0]) && MatchComponents(ps[1..], fs[1..])
  }

  lemma {:induction false} MatchComponentsTokens(ps: seq<string>, fs: seq<string>)
    ensures MatchComponents(ps, fs) <==> Matches(MatchComponent, PathTokens(ps), fs)
    decreases |ps| + |fs|
  {
    if ps == [] {
    } else {
      assert PathTokens(ps)[1..] == PathTokens(ps[1..]);
      if fs != [] {
        MatchComponentsTokens(ps[1..], fs[1..]);
        MatchComponentsTokens(ps[1..], fs);
        MatchComponentsTokens(ps, fs[1..]);
      }
    }
  }

  ghost function NameMeaning(): (string, string) -> bool {
    (p: string, name: string) => NameMeans(p, name)
  }

  /** What a path pattern means: `**` stands for any components, any other component pattern
      for one component that it means. */
  ghost predicate PathMeans(ps: seq<string>, fs: seq<string>) {
    Means(NameMeaning(), PathTokens(ps), fs)
  }

  predicate NamesExact(ps: seq<string>) {
    forall p :: p in ps ==> p == "**" || !EndsInTwoStars(NameTokens(p))
  }

  lemma {:induction false} PathTokensOf(ps: seq<string>)
    ensures |PathTokens(ps)| == |ps| && forall i :: 0 <= i < |ps| ==> PathTokens(ps)[i] == PathToken(ps[i])
  {
    if ps != [] {
      PathTokensOf(ps[1..]);
      assert forall i :: 1 <= i < |ps| ==> ps[i] == ps[1..][i - 1] && PathTokens(ps)[i] == PathTokens(ps[1..])[i - 1];
    }
  }

  /** The matcher is sound and complete: for every path pattern that neither ends in two `**`
      nor has a name pattern that ends in two stars. */
  lemma PathExact(ps: seq<string>, fs: seq<string>)
    requires NamesExact(ps) && !EndsInTwoStars(PathTokens(ps))
    ensures MatchComponents(ps, fs) <==> PathMeans(ps, fs)
  {
    MatchComponentsTokens(ps, fs);
    ExactUnlessTwoStars(MatchComponent, PathTokens(ps), fs);
    PathTokensOf(ps);
    forall p: string, x: string | One(p) in PathTokens(ps)
      ensures MatchComponent(p, x) <==> NameMeaning()(p, x)
    {
      var i :| 0 <= i < |ps| && PathTokens(ps)[i] == One(p);
      assert ps[i] == p;
      NameExact(p, x);
    }
    SameMeaning(MatchComponent, NameMeaning(), PathTokens(ps), fs);
  }

  predicate AllClosed(ps: seq<string>) {
    forall p :: p in ps ==> Closed(p)
  }

  ghost predicate PathIsExact(ps: seq<string>) {
    forall fs :: MatchComponents(ps, fs) <==> PathMeans(ps, fs)
  }

  lemma NameFits(p: string)
    ensures FitsSome(NameMeaning(), p) <==> Closed(p)
    ensures !Closed(p) ==> !FitsSome(MatchComponent, p)
  {
    TokensFit(p);
    if Closed(p) {
      ChoiceFits(CharFits, NameTokens(p), 'a');
      WordMeans(CharFits, NameTokens(p), Choice(CharFits, 'a'));
      assert NameMeaning()(p, Word(NameTokens(p), Choice(CharFits, 'a')));
    } else {
      forall name
        ensures !NameMeaning()(p, name) && !MatchComponent(p, name)
      {
        UnsatisfiableExact(CharFits, NameTokens(p), name);
        MatchComponentTokens(p, name);
      }
    }
  }

  lemma PathFits(ps: seq<string>)
    ensures AllClosed(ps) ==> Satisfiable(NameMeaning(), PathTokens(ps))
    ensures !AllClosed(ps) ==>
              !Satisfiable(NameMeaning(), PathTokens(ps)) && !Satisfiable(MatchComponent, PathTokens(ps))
  {
    PathTokensOf(ps);
    if AllClosed(ps) {
      forall i | 0 <= i < |ps| && PathTokens(ps)[i].One?
        ensures FitsSome(NameMeaning(), PathTokens(ps)[i].value)
      {
        assert ps[i] in ps;
        NameFits(ps[i]);
      }
    } else {
      var p :| p in ps && !Closed(p);
      var i :| 0 <= i < |ps| && ps[i] == p;
      NameFits(p);
      StarsClosed();
      assert PathTokens(ps)[i] == One(p);
    }
  }

  lemma StarsClosed()
    ensures Closed("**")
  {
    assert "**"[1..] == "*" && "*"[1..] == "";
    assert NameTokens("**") == [Star] + NameTokens("*") && NameTokens("*") == [Star];
  }

  /** With an open name pattern nothing is meant and nothing accepted. */
  lemma OpenPathExact(ps: seq<string>, fs: seq<string>)
    requires !AllClosed(ps)
    ensures !PathMeans(ps, fs) && !MatchComponents(ps, fs)
  {
    PathFits(ps);
    UnsatisfiableExact(NameMeaning(), PathTokens(ps), fs);
    UnsatisfiableExact(MatchComponent, PathTokens(ps), fs);
    MatchComponentsTokens(ps, fs);
  }

  /** A path pattern that ends in two `**` refuses what it means. */
  lemma TwoStarsInexact(ps: seq<string>) returns (fs: seq<string>)
    requires AllClosed(ps) && EndsInTwoStars(PathTokens(ps))
    ensures PathMeans(ps, fs) && !MatchComponents(ps, fs)
  {
    var choice := Choice(NameMeaning(), "");
    fs := Word(PathTokens(ps), choice);
    PathFits(ps);
    ChoiceFits(NameMeaning(), PathTokens(ps), "");
    WordMeans(NameMeaning(), PathTokens(ps), choice);
    WordRefused(MatchComponent, PathTokens(ps), choice);
    MatchComponentsTokens(ps, fs);
  }

  /** So does one with a name pattern that ends in two stars. */
  lemma NameInexact(ps: seq<string>, i: nat) returns (fs: seq<string>)
    requires AllClosed(ps) && i < |ps| && ps[i] != "**" && EndsInTwoStars(NameTokens(ps[i]))
    ensures PathMeans(ps, fs) && !MatchComponents(ps, fs)
  {
    var ts := PathTokens(ps);
    NameExactIff(ps[i]);
    var name :| !(MatchComponent(ps[i], name) <==> NameMeans(ps[i], name));
    if MatchComponent(ps[i], name) {
      NameSound(ps[i], name);
    }
    var other := Choice(NameMeaning(), "");
    var choice := (p: string) => if p == ps[i] then name else other(p);
    fs := Word(ts, choice);
    PathFits(ps);
    ChoiceFits(NameMeaning(), ts, "");
    assert Chosen(NameMeaning(), ts, choice);
    WordMeans(NameMeaning(), ts, choice);
    MatchComponentsTokens(ps, fs);
    MatchesIff(MatchComponent, ts, fs);
    if pieces :| DividesStrictly(MatchComponent, ts, fs, pieces) {
      PathTokensOf(ps);
      WordDivides(MatchComponent, ts, choice, pieces, i);
    }
  }

  /** For which path patterns the matcher is exact on all paths: those that neither end in two
      `**` nor have a name pattern that ends in two stars, and those with a name pattern that
      ends in a lone backslash, which mean nothing. */
  lemma PathExactIff(ps: seq<string>)
    ensures PathIsExact(ps) <==> (NamesExact(ps) && !EndsInTwoStars(PathTokens(ps))) || !AllClosed(ps)
  {
    if !AllClosed(ps) {
      forall fs
        ensures MatchComponents(ps, fs) <==> PathMeans(ps, fs)
      {
        OpenPathExact(ps, fs);
      }
    } else if EndsInTwoStars(PathTokens(ps)) {
      var fs := TwoStarsInexact(ps);
    } else if p :| p in ps && p != "**" && EndsInTwoStars(NameTokens(p)) {
      var i :| 0 <= i < |ps| && ps[i] == p;
      var fs := NameInexact(ps, i);
    } else {
      forall fs
        ensures MatchComponents(ps, fs) <==> PathMeans(ps, fs)
      {
        PathExact(ps, fs);
      }
    }
  }

  // ----- Collapsing `**/**` in the text of the pattern

  predicate DoubleStarAt(s: string, i: int) {
    0 <= i <= |s| - 2 && s[i] == '*' && s[i + 1] == '*'
  }

  // `**/**` at position i.
  predicate PairAt(s: string, i: int) {
    0 <= i <= |s| - 5 && s[i] == '*' && s[i + 1] == '*' && s[i + 2] == '/' && s[i + 3] == '*' && s[i + 4] == '*'
  }

  predicate HasPair(s: string) {
    exists i :: 0 <= i < |s| && PairAt(s, i)
  }

  // Every `**/**` replaced by `**`, from the left.
  function ReplaceAll(s: string): (r: string)
    ensures |r| <= |s|
  {
    if s == "" then ""
    else if PairAt(s, 0) then "**" + ReplaceAll(s[5..])
    else [s[0]] + ReplaceAll(s[1..])
  }

  lemma {:induction false} ReplaceShrinks(s: string)
    requires HasPair(s)
    ensures |ReplaceAll(s)| < |s|
  {
    var i :| 0 <= i < |s| && PairAt(s, i);
    if i > 0 {
      assert PairAt(s[1..], i - 1);
      ReplaceShrinks(s[1..]);
    }
  }

  function CollapsedText(s: string): string
    decreases |s|
  {
    if HasPair(s) then
      ReplaceShrinks(s);
      CollapsedText(ReplaceAll(s))
    else s
  }

  /** The same pass on the components. */
  function CollapsedParts(ps: seq<string>): seq<string> {
    if ps == [] then []
    else if |ps| >= 2 && ps[0] == "**" && ps[1] == "**" then ["**"] + CollapsedParts(ps[2..])
    else [ps[0]] + CollapsedParts(ps[1..])
  }

  predicate StartsDouble(p: string) {
    DoubleStarAt(p, 0)
  }

  predicate EndsDouble(p: string) {
    DoubleStarAt(p, |p| - 2)
  }

  /** In the text, two stars meet a separator and two stars only where two `**` do. */
  predicate Apart(ps: seq<string>) {
    forall i :: 0 <= i < |ps| ==> ApartAt(ps, i)
  }

  predicate ApartAt(ps: seq<string>, i: nat)
    requires i < |ps|
  {
    ps[i] == "**" || (!StartsDouble(ps[i]) && (i + 1 < |ps| && ps[i + 1] == "**" ==> !EndsDouble(ps[i])))
  }

  /** What may follow a component in the text. */
  predicate AtBorder(rest: string) {
    rest == "" || rest[0] == '/'
  }

  lemma {:induction false} ReplaceInside(name: string, rest: string)
    requires '/' !in name && AtBorder(rest)
    requires !(EndsDouble(name) && DoubleStarAt(rest, 1))
    ensures ReplaceAll(name + rest) == name + ReplaceAll(rest)
  {
    if name == "" {
      assert name + rest == rest && name + ReplaceAll(rest) == ReplaceAll(rest);
    } else {
      NoPairInFront(name, rest);
      assert EndsDouble(name[1..]) ==> EndsDouble(name);
      ReplaceInside(name[1..], rest);
      FirstThenTail(name, rest);
      FirstThenTail(name, ReplaceAll(rest));
      ReplaceStep(name + rest, name[0], name[1..] + rest);
    }
  }

  lemma FirstThenTail(name: string, more: string)
    requires name != ""
    ensures name + more == [name[0]] + (name[1..] + more)
  {
  }

  lemma ReplaceStep(s: string, first: char, rest: string)
    requires s == [first] + rest && !PairAt(s, 0)
    ensures ReplaceAll(s) == [first] + ReplaceAll(rest)
  {
    assert s[1..] == rest;
  }

  lemma NoPairInFront(name: string, rest: string)
    requires name != "" && '/' !in name && AtBorder(rest)
    requires !(EndsDouble(name) && DoubleStarAt(rest, 1))
    ensures !PairAt(name + rest, 0)
  {
    var s := name + rest;
    assert forall i :: 0 <= i < |name| ==> s[i] == name[i] != '/';
    assert |name| < |s| ==> s[|name|] == '/';
    assert |name| == 2 ==> s[2..] == rest;
  }

  lemma ApartRest(ps: seq<string>, k: nat)
    requires Apart(ps) && k <= |ps|
    ensures Apart(ps[k..])
  {
    forall i | 0 <= i < |ps[k..]|
      ensures ApartAt(ps[k..], i)
    {
      assert ApartAt(ps, k + i);
    }
  }

  /** What follows a component does not start with two stars, unless that is a `**`. */
  lemma AfterName(ps: seq<string>)
    requires ps != [] && ps[0] != "**" && Apart(ps)
    ensures AtBorder(Tail(ps[1..])) && !(EndsDouble(ps[0]) && DoubleStarAt(Tail(ps[1..]), 1))
  {
    assert ApartAt(ps, 0);
    if |ps| > 1 {
      assert ApartAt(ps, 1);
      JoinFront(ps[1..]);
      var tail := Tail(ps[1..]);
      assert tail[1..] == ps[1] + Tail(ps[1..][1..]);
      assert DoubleStarAt(tail, 1) ==> tail[1] == tail[1..][0] && tail[2] == tail[1..][1];
    }
  }

  lemma {:induction false} ReplaceParts(ps: seq<string>)
    requires Apart(ps) && NoneHas(ps, '/')
    ensures ReplaceAll(Join(ps, '/')) == Join(CollapsedParts(ps), '/')
    decreases |ps|
  {
    if ps != [] {
      var twice := |ps| >= 2 && ps[0] == "**" && ps[1] == "**";
      var rest := if twice then ps[2..] else ps[1..];
      ApartRest(ps, if twice then 2 else 1);
      ReplaceParts(rest);
      ReplaceTail(rest);
      CollapsedFront(ps, rest);
      if twice {
        JoinTwo(ps);
        ReplaceFirstPair(Tail(rest));
      } else {
        JoinFront(ps);
        if ps[0] == "**" {
          assert rest != [] ==> ApartAt(ps, 1);
          ReplaceLone(rest);
        } else {
          AfterName(ps);
          ReplaceInside(ps[0], Tail(rest));
        }
      }
    }
  }

  lemma CollapsedFront(ps: seq<string>, rest: seq<string>)
    requires ps != []
    requires rest == if |ps| >= 2 && ps[0] == "**" && ps[1] == "**" then ps[2..] else ps[1..]
    ensures Join(CollapsedParts(ps), '/') == ps[0] + Tail(CollapsedParts(rest))
  {
    assert CollapsedParts(ps) == [ps[0]] + CollapsedParts(rest);
    JoinFront(CollapsedParts(ps));
    assert CollapsedParts(ps)[1..] == CollapsedParts(rest);
  }

  lemma JoinTwo(ps: seq<string>)
    requires |ps| >= 2 && ps[0] == "**" && ps[1] == "**"
    ensures Join(ps, '/') == "**/**" + Tail(ps[2..])
  {
    JoinFront(ps);
    JoinFront(ps[1..]);
    assert ps[1..][1..] == ps[2..];
    PairText(ps[0], Tail(ps[2..]));
  }

  lemma PairText(stars: string, tail: string)
    requires stars == "**"
    ensures stars + (['/'] + (stars + tail)) == "**/**" + tail
  {
    var pair := stars + ['/'] + stars;
    assert pair == "**/**";
    assert stars + (['/'] + (stars + tail)) == pair + tail;
  }

  lemma ReplaceFirstPair(tail: string)
    ensures ReplaceAll("**/**" + tail) == "**" + ReplaceAll(tail)
  {
    var s := "**/**" + tail;
    assert PairAt(s, 0) && s[5..] == tail;
  }

  /** The text after a component. */
  function Tail(rest: seq<string>): string {
    if rest == [] then "" else ['/'] + Join(rest, '/')
  }

  lemma JoinFront(ps: seq<string>)
    requires ps != []
    ensures Join(ps, '/') == ps[0] + Tail(ps[1..])
  {
    if |ps| == 1 {
      assert ps[0] + "" == ps[0];
    } else {
      assert ps[0] + ['/'] + Join(ps[1..], '/') == ps[0] + (['/'] + Join(ps[1..], '/'));
    }
  }

  lemma ReplaceTail(rest: seq<string>)
    requires ReplaceAll(Join(rest, '/')) == Join(CollapsedParts(rest), '/')
    ensures ReplaceAll(Tail(rest)) == Tail(CollapsedParts(rest))
  {
    if rest != [] {
      assert !PairAt(Tail(rest), 0);
      assert Tail(rest)[1..] == Join(rest, '/');
    }
  }

  lemma ReplaceLone(rest: seq<string>)
    requires rest == [] || !StartsDouble(rest[0])
    ensures ReplaceAll("**" + Tail(rest)) == "**" + ReplaceAll(Tail(rest))
  {
    var tail := Tail(rest);
    var s, t := "**" + tail, "*" + tail;
    if rest != [] {
      JoinFront(rest);
      assert s[3..] == rest[0] + Tail(rest[1..]);
      assert s[3..] != "" ==> s[3] == s[3..][0];
      assert |s| >= 5 ==> s[4] == s[3..][1];
    }
    assert !PairAt(s, 0) && !PairAt(t, 0);
    assert s[1..] == t && t[1..] == tail;
    assert "*" + ("*" + ReplaceAll(tail)) == "**" + ReplaceAll(tail);
  }

  lemma {:induction false} CollapsedPartsKeep(ps: seq<string>)
    ensures PathTokens(CollapsedParts(ps)) == Collapsed(PathTokens(ps))
    decreases |ps|
  {
    if ps != [] {
      assert PathTokens(ps)[1..] == PathTokens(ps[1..]);
      if |ps| >= 2 && ps[0] == "**" && ps[1] == "**" {
        CollapsedPartsKeep(ps[2..]);
        assert PathTokens(ps)[2..] == PathTokens(ps[1..])[1..] == PathTokens(ps[2..]) by {
          assert ps[1..][1..] == ps[2..];
        }
        assert CollapsedParts(ps)[1..] == CollapsedParts(ps[2..]);
      } else {
        CollapsedPartsKeep(ps[1..]);
        assert CollapsedParts(ps)[1..] == CollapsedParts(ps[1..]);
        assert |ps| >= 2 ==> PathTokens(ps)[1] == PathToken(ps[1]);
      }
    }
  }

  lemma {:induction false} CollapsedPartsApart(ps: seq<string>)
    requires Apart(ps) && NoneHas(ps, '/')
    ensures Apart(CollapsedParts(ps)) && NoneHas(CollapsedParts(ps), '/')
    ensures ps != [] ==> CollapsedParts(ps) != [] && CollapsedParts(ps)[0] == ps[0]
    ensures forall p :: p in CollapsedParts(ps) <==> p in ps
    decreases |ps|
  {
    if ps != [] {
      var k := if |ps| >= 2 && ps[0] == "**" && ps[1] == "**" then 2 else 1;
      var rest, all := CollapsedParts(ps[k..]), CollapsedParts(ps);
      ApartRest(ps, k);
      CollapsedPartsApart(ps[k..]);
      assert all == [ps[0]] + rest && ApartAt(ps, 0);
      forall i | 0 <= i < |all|
        ensures ApartAt(all, i)
      {
        if i > 0 {
          assert ApartAt(rest, i - 1);
        }
      }
    }
  }

  ghost predicate SameNames(ps: seq<string>, qs: seq<string>) {
    forall p :: p in ps <==> p in qs
  }

  /** One pass over the text keeps the meaning of a pattern whose components are apart. */
  lemma ReplaceKeepsMeaning(s: string, fs: seq<string>)
    requires Apart(Split(s, '/'))
    ensures Apart(Split(ReplaceAll(s), '/')) && SameNames(Split(ReplaceAll(s), '/'), Split(s, '/'))
    ensures PathMeans(Split(ReplaceAll(s), '/'), fs) <==> PathMeans(Split(s, '/'), fs)
  {
    var ps := Split(s, '/');
    JoinSplit(s, '/');
    SplitNoneHas(s, '/');
    ReplaceParts(ps);
    CollapsedPartsApart(ps);
    SplitJoin(CollapsedParts(ps), '/');
    CollapsedPartsKeep(ps);
    CollapsedKeeps(NameMeaning(), PathTokens(ps), fs);
  }

  lemma {:induction false} AdjacentInText(ps: seq<string>, i: nat)
    requires i + 1 < |ps| && ps[i] == "**" && ps[i + 1] == "**"
    ensures HasPair(Join(ps, '/'))
  {
    if i == 0 {
      JoinTwo(ps);
      assert PairAt(Join(ps, '/'), 0);
    } else {
      AdjacentInText(ps[1..], i - 1);
      JoinFront(ps);
      PairLater(ps[0], Join(ps[1..], '/'));
    }
  }

  lemma PairLater(first: string, rest: string)
    requires HasPair(rest)
    ensures HasPair(first + (['/'] + rest))
  {
    var s, o := first + (['/'] + rest), |first| + 1;
    var k :| 0 <= k < |rest| && PairAt(rest, k);
    assert s[o..] == rest;
    assert PairAt(s, o + k);
  }

  lemma NoneAdjacent(s: string)
    requires !HasPair(s)
    ensures NoAdjacentStars(PathTokens(Split(s, '/')))
  {
    var ps := Split(s, '/');
    JoinSplit(s, '/');
    PathTokensOf(ps);
    forall i | 0 < i < |ps|
      ensures !(PathTokens(ps)[i - 1].Star? && PathTokens(ps)[i].Star?)
    {
      if ps[i - 1] == "**" && ps[i] == "**" {
        AdjacentInText(ps, i - 1);
      }
    }
  }

  /** Collapsing keeps the meaning and leaves no two `**` next to each other. */
  lemma {:induction false} CollapsingKeepsMeaning(s: string, fs: seq<string>)
    requires Apart(Split(s, '/'))
    ensures SameNames(Split(CollapsedText(s), '/'), Split(s, '/'))
    ensures NoAdjacentStars(PathTokens(Split(CollapsedText(s), '/')))
    ensures PathMeans(Split(CollapsedText(s), '/'), fs) <==> PathMeans(Split(s, '/'), fs)
    decreases |s|
  {
    if HasPair(s) {
      ReplaceShrinks(s);
      ReplaceKeepsMeaning(s, fs);
      CollapsingKeepsMeaning(ReplaceAll(s), fs);
    } else {
      NoneAdjacent(s);
    }
  }

  // ----- Match

  datatype Result = Ok(matched: bool) | ValueError

  /** The three regular expressions that reject a pattern: two stars after another character,
      two stars at the start before one, and two stars in the middle before one. */
  predicate AfterInvalidAt(p: string, i: int) {
    0 <= i < |p| - 2 && p[i] != '/' && p[i] != '\\' && p[i + 1] == '*' && p[i + 2] == '*'
  }

  predicate FirstBeforeInvalid(p: string) {
    |p| >= 3 && p[0] == '*' && p[1] == '*' && p[2] != '/'
  }

  predicate MiddleBeforeInvalidAt(p: string, i: int) {
    0 <= i < |p| - 3 && p[i] != '\\' && p[i + 1] == '*' && p[i + 2] == '*' && p[i + 3] != '/'
  }

  predicate Invalid(p: string) {
    || (exists i :: 0 <= i < |p| && AfterInvalidAt(p, i))
    || FirstBeforeInvalid(p)
    || exists i :: 0 <= i < |p| && MiddleBeforeInvalidAt(p, i)
  }

  function Matched(pattern: string, fileName: string): Result {
    if Invalid(pattern) then ValueError
    else Ok(MatchComponents(Split(CollapsedText(Rstrip(pattern, '/')), '/'), Split(Rstrip(fileName, '/'), '/')))
  }

  /** With '/' as the platform's separator. */
  method Match(pattern: string, fileName: string) returns (r: Result)
    ensures r == Matched(pattern, fileName)
  {
    if Invalid(pattern) {
      return ValueError;
    }
    var p := Rstrip(pattern, '/');
    while HasPair(p)
      invariant CollapsedText(p) == CollapsedText(Rstrip(pattern, '/'))
      decreases |p|
    {
      ReplaceShrinks(p);
      p := ReplaceAll(p);
    }
    r := Ok(MatchComponents(Split(p, '/'), Split(Rstrip(fileName, '/'), '/')));
  }

  predicate SlashOrEnd(s: string, i: int) {
    i < 0 || i >= |s| || s[i] == '/'
  }

  predicate Escaped(s: string, i: int) {
    0 < i <= |s| && s[i - 1] == '\\'
  }

  /** A backslash before `**`, a separator and `**`. */
  predicate EscapedPair(s: string) {
    exists i :: 0 <= i < |s| && PairAt(s, i) && Escaped(s, i)
  }

  /** Every `**` stands alone between separators, or follows a backslash and begins no pair. */
  predicate Alone(s: string) {
    forall i :: 0 <= i < |s| && DoubleStarAt(s, i) ==> AloneAt(s, i)
  }

  predicate AloneAt(s: string, i: int) {
    if Escaped(s, i) then !PairAt(s, i) else SlashOrEnd(s, i - 1) && SlashOrEnd(s, i + 2)
  }

  /** Two stars that neither follow a backslash nor stand alone between separators. */
  predicate MisplacedAt(s: string, i: int) {
    DoubleStarAt(s, i) && !Escaped(s, i) && !(SlashOrEnd(s, i - 1) && SlashOrEnd(s, i + 2))
  }

  ghost predicate HasMisplaced(s: string) {
    exists i :: 0 <= i < |s| && MisplacedAt(s, i)
  }

  /** The three expressions together reject exactly the patterns with misplaced stars. */
  lemma InvalidIff(s: string)
    ensures Invalid(s) <==> HasMisplaced(s)
  {
    if i :| 0 <= i < |s| && AfterInvalidAt(s, i) {
      assert MisplacedAt(s, i + 1);
    }
    if FirstBeforeInvalid(s) {
      assert MisplacedAt(s, 0);
    }
    if i :| 0 <= i < |s| && MiddleBeforeInvalidAt(s, i) {
      assert MisplacedAt(s, i + 1);
    }
    if i :| 0 <= i < |s| && MisplacedAt(s, i) {
      if i > 0 {
        assert AfterInvalidAt(s, i - 1) || MiddleBeforeInvalidAt(s, i - 1);
      } else {
        assert FirstBeforeInvalid(s);
      }
    }
  }

  lemma ValidAlone(s: string)
    requires !Invalid(s) && !EscapedPair(s)
    ensures Alone(s)
  {
    forall i | 0 <= i < |s| && DoubleStarAt(s, i)
      ensures AloneAt(s, i)
    {
      if i > 0 {
        assert !AfterInvalidAt(s, i - 1) && !MiddleBeforeInvalidAt(s, i - 1);
      }
    }
  }

  lemma {:induction false} AloneRstrip(s: string, c: char)
    requires Alone(s)
    ensures Alone(Rstrip(s, c))
  {
    if s != "" && s[|s| - 1] == c {
      var front := s[..|s| - 1];
      forall i | 0 <= i < |front| && DoubleStarAt(front, i)
        ensures AloneAt(front, i)
      {
        assert DoubleStarAt(s, i) && AloneAt(s, i);
      }
      AloneRstrip(front, c);
    }
  }

  lemma {:induction false} AloneApart(ps: seq<string>)
    requires ps != [] && NoneHas(ps, '/') && Alone(Join(ps, '/'))
    ensures Apart(ps)
  {
    JoinFront(ps);
    AloneFirst(ps);
    if |ps| > 1 {
      AloneRest(ps[0], Join(ps[1..], '/'));
      AloneApart(ps[1..]);
      forall i | 1 <= i < |ps|
        ensures ApartAt(ps, i)
      {
        assert ApartAt(ps[1..], i - 1);
      }
    }
  }

  lemma AloneFirst(ps: seq<string>)
    requires ps != [] && '/' !in ps[0] && Alone(ps[0] + Tail(ps[1..]))
    ensures ApartAt(ps, 0)
  {
    var first, tail := ps[0], Tail(ps[1..]);
    var s := first + tail;
    assert forall k :: 0 <= k < |first| ==> s[k] == first[k] != '/';
    if StartsDouble(first) {
      assert DoubleStarAt(s, 0) && AloneAt(s, 0);
      assert first == "**";
    } else if |ps| > 1 && ps[1] == "**" {
      JoinFront(ps[1..]);
      assert tail == "/**" + Tail(ps[1..][1..]);
      PairAtSeam(first, Tail(ps[1..][1..]));
      assert EndsDouble(first) ==> AloneAt(s, |first| - 2);
    }
  }

  lemma PairAtSeam(first: string, rest: string)
    ensures EndsDouble(first) ==>
              DoubleStarAt(first + ("/**" + rest), |first| - 2) && PairAt(first + ("/**" + rest), |first| - 2)
  {
    var s := first + ("/**" + rest);
    assert s[|first|..] == "/**" + rest;
    assert s[|first|] == '/' && s[|first| + 1] == '*' && s[|first| + 2] == '*';
  }

  lemma AloneRest(first: string, rest: string)
    requires Alone(first + (['/'] + rest))
    ensures Alone(rest)
  {
    var s, o := first + (['/'] + rest), |first| + 1;
    assert s[o..] == rest;
    forall i | 0 <= i < |rest| && DoubleStarAt(rest, i)
      ensures AloneAt(rest, i)
    {
      assert DoubleStarAt(s, o + i) && AloneAt(s, o + i);
      assert s[o - 1] == '/';
    }
  }

  /** What is matched against the components of a pattern's text. */
  function Components(pattern: string): seq<string> {
    Split(Rstrip(pattern, '/'), '/')
  }

  function CollapsedComponents(pattern: string): seq<string> {
    Split(CollapsedText(Rstrip(pattern, '/')), '/')
  }

  lemma CollapsedMeaning(pattern: string, fs: seq<string>)
    requires !Invalid(pattern) && !EscapedPair(pattern)
    ensures SameNames(CollapsedComponents(pattern), Components(pattern))
    ensures NoAdjacentStars(PathTokens(CollapsedComponents(pattern)))
    ensures PathMeans(CollapsedComponents(pattern), fs) <==> PathMeans(Components(pattern), fs)
  {
    var s := Rstrip(pattern, '/');
    ValidAlone(pattern);
    AloneRstrip(pattern, '/');
    JoinSplit(s, '/');
    SplitNoneHas(s, '/');
    AloneApart(Split(s, '/'));
    CollapsingKeepsMeaning(s, fs);
  }

  /** `match` is exact: for every pattern it does not reject, in which no escaped star and star
      stand before a `**` component and no name pattern ends in two stars, and for every file
      name. */
  lemma MatchExact(pattern: string, fileName: string)
    requires !EscapedPair(pattern) && NamesExact(Components(pattern))
    ensures Matched(pattern, fileName) == ValueError <==> HasMisplaced(pattern)
    ensures Matched(pattern, fileName) == Ok(true) <==>
              !HasMisplaced(pattern) && PathMeans(Components(pattern), Components(fileName))
  {
    InvalidIff(pattern);
    if !Invalid(pattern) {
      CollapsedMeaning(pattern, Components(fileName));
      PathExact(CollapsedComponents(pattern), Components(fileName));
    }
  }

  // ----- And only then: file names that are not matched as they should be

  function CharOf(t: NameToken): char {
    if t.Lit? then t.c else 'a'
  }

  /** A name that a pattern means. */
  function Sample(p: string): string {
    if p == "*" then "a" else Word(NameTokens(p), CharOf)
  }

  lemma SampleFits(p: string)
    requires Closed(p)
    ensures NameMeans(p, Sample(p))
  {
    var ts := NameTokens(p);
    if p == "*" {
      assert p[1..] == "" && "a"[1..] == "";
      assert MatchComponent(p, "");
      NameSound(p, "a");
    } else {
      forall i | 0 <= i < |ts| && ts[i].One?
        ensures CharFits(ts[i].value, CharOf(ts[i].value))
      {
        assert ts[i] != One(Never);
      }
      WordMeans(CharFits, ts, CharOf);
    }
  }

  lemma SampleRefused(p: string)
    requires EndsInTwoStars(NameTokens(p))
    ensures !MatchComponent(p, Sample(p))
  {
    assert NameTokens("*") == [Star] by {
      assert "*"[1..] == "";
    }
    MatchComponentTokens(p, Sample(p));
    WordRefused(CharFits, NameTokens(p), CharOf);
  }

  lemma {:induction false} WordKeepsOut(p: string, c: char)
    requires c !in p && c != 'a'
    ensures c !in Word(NameTokens(p), CharOf)
    decreases |p|
  {
    if p != "" {
      var k := if p[0] == '\\' && |p| >= 2 then 2 else 1;
      WordKeepsOut(p[k..], c);
      assert NameTokens(p) == [NameTokens(p)[0]] + NameTokens(p[k..]);
    }
  }

  lemma SampleNotEmpty(p: string)
    requires p != "" && !StartsDouble(p)
    ensures Sample(p) != ""
  {
    if p != "*" && p[0] == '*' {
      assert NameTokens(p) == [Star] + NameTokens(p[1..]);
      assert p[1..][0] != '*' && NameTokens(p[1..])[0].One?;
      assert Word(NameTokens(p), CharOf) == Word(NameTokens(p[1..]), CharOf);
    }
  }

  lemma {:induction false} JoinLast(parts: seq<string>)
    requires parts != [] && parts[|parts| - 1] != ""
    ensures Join(parts, '/') != ""
    ensures var last := parts[|parts| - 1]; Join(parts, '/')[|Join(parts, '/')| - 1] == last[|last| - 1]
  {
    if |parts| > 1 {
      JoinLast(parts[1..]);
    }
  }

  /** The names that are the components of some file name. */
  lemma FileOf(fs: seq<string>)
    requires IsFile(fs)
    ensures Components(Join(fs, '/')) == fs
  {
    JoinLast(fs);
    assert '/' !in fs[|fs| - 1];
    SplitJoin(fs, '/');
  }

  predicate EndsInside(s: string) {
    s != "" && s[|s| - 1] != '/'
  }

  lemma {:induction false} ReplaceLast(s: string)
    requires s != ""
    ensures ReplaceAll(s) != "" && ReplaceAll(s)[|ReplaceAll(s)| - 1] == s[|s| - 1]
  {
    if PairAt(s, 0) {
      if |s| > 5 {
        ReplaceLast(s[5..]);
      }
    } else if |s| > 1 {
      ReplaceLast(s[1..]);
    }
  }

  lemma {:induction false} CollapsedLast(s: string)
    requires EndsInside(s)
    ensures EndsInside(CollapsedText(s))
    decreases |s|
  {
    if HasPair(s) {
      ReplaceShrinks(s);
      ReplaceLast(s);
      CollapsedLast(ReplaceAll(s));
    }
  }

  lemma {:induction false} SplitLast(s: string)
    requires EndsInside(s)
    ensures var parts := Split(s, '/'); parts[|parts| - 1] != ""
  {
    if |s| > 1 {
      SplitLast(s[1..]);
    }
  }

  /** What is known of the components of a valid pattern. */
  lemma ValidComponents(pattern: string)
    requires !Invalid(pattern) && !EscapedPair(pattern)
    ensures var ps := CollapsedComponents(pattern);
            && NoneHas(ps, '/') && (ps[|ps| - 1] != "" || ps == [""])
            && (forall p :: p in ps && p != "**" ==> !StartsDouble(p))
  {
    var s := Rstrip(pattern, '/');
    ValidAlone(pattern);
    AloneRstrip(pattern, '/');
    JoinSplit(s, '/');
    SplitNoneHas(s, '/');
    AloneApart(Split(s, '/'));
    CollapsedMeaning(pattern, []);
    SplitNoneHas(CollapsedText(s), '/');
    RstripIs(pattern, '/');
    forall p | p in CollapsedComponents(pattern) && p != "**"
      ensures !StartsDouble(p)
    {
      var i :| 0 <= i < |Split(s, '/')| && Split(s, '/')[i] == p;
      assert ApartAt(Split(s, '/'), i);
    }
    if s != "" {
      CollapsedLast(s);
      SplitLast(CollapsedText(s));
    }
  }

  lemma SamplesMeant(ps: seq<string>)
    requires AllClosed(ps)
    ensures PathMeans(ps, Word(PathTokens(ps), Sample))
  {
    var ts := PathTokens(ps);
    PathTokensOf(ps);
    forall i | 0 <= i < |ts| && ts[i].One?
      ensures NameMeaning()(ts[i].value, Sample(ts[i].value))
    {
      assert ps[i] in ps;
      SampleFits(ps[i]);
    }
    WordMeans(NameMeaning(), ts, Sample);
  }

  lemma {:induction false} SamplesKeepOut(ps: seq<string>)
    requires NoneHas(ps, '/')
    ensures NoneHas(Word(PathTokens(ps), Sample), '/')
  {
    if ps != [] {
      forall i | 0 <= i < |ps[1..]|
        ensures '/' !in ps[1..][i]
      {
        assert ps[1..][i] == ps[i + 1];
      }
      SamplesKeepOut(ps[1..]);
      WordKeepsOut(ps[0], '/');
      assert PathTokens(ps)[1..] == PathTokens(ps[1..]);
    }
  }

  /** The shortest path that a pattern means is refused if a name pattern ends in two stars. */
  lemma SamplesRefused(ps: seq<string>, i: nat)
    requires i < |ps| && ps[i] != "**" && EndsInTwoStars(NameTokens(ps[i]))
    ensures !MatchComponents(ps, Word(PathTokens(ps), Sample))
  {
    PathTokensOf(ps);
    SampleRefused(ps[i]);
    WordNotAccepted(MatchComponent, PathTokens(ps), Sample, i);
    MatchComponentsTokens(ps, Word(PathTokens(ps), Sample));
  }

  /** So is the path with one more name, where the pattern ends in an empty component and `**`. */
  lemma SamplesAndMoreRefused(ps: seq<string>, ts: seq<Token<string>>, i: nat, z: string)
    requires ts == PathTokens(ps) && |ts| >= 2 && ts[|ts| - 1].Star?
    requires ts[|ts| - 2].One? && !MatchComponent(ts[|ts| - 2].value, z)
    requires i < |ts| && ts[i].One? && EndsInTwoStars(NameTokens(ts[i].value))
    ensures !MatchComponents(ps, Word(ts, Sample) + [z])
  {
    SampleRefused(ts[i].value);
    WordAndMoreNotAccepted(MatchComponent, ts, Sample, z, i);
    MatchComponentsTokens(ps, Word(ts, Sample) + [z]);
  }

  /** A path that some file name has: its last name is not empty. */
  predicate IsFile(fs: seq<string>) {
    fs != [] && NoneHas(fs, '/') && fs[|fs| - 1] != ""
  }

  /** Unless the pattern ends in an empty component and `**`, the shortest path is one. */
  lemma SamplesAreFile(ps: seq<string>, last: nat)
    requires last < |ps| && ps[last] != "**" && ps[last] != "" && !StartsDouble(ps[last]) && NoneHas(ps, '/')
    requires last == |ps| - 1 || (last == |ps| - 2 && ps[|ps| - 1] == "**")
    ensures IsFile(Word(PathTokens(ps), Sample))
  {
    var ts := PathTokens(ps);
    PathTokensOf(ps);
    SamplesKeepOut(ps);
    SampleNotEmpty(ps[last]);
    WordLast(ts, Sample);
    WordLast(ts[..last + 1], Sample);
    assert ts[..|ts|] == ts;
    assert Part(ts[last], Sample) == [Sample(ps[last])];
  }

  lemma SamplesAndMoreAreFile(ps: seq<string>, z: string)
    requires NoneHas(ps, '/') && '/' !in z && z != ""
    ensures IsFile(Word(PathTokens(ps), Sample) + [z])
  {
    SamplesKeepOut(ps);
  }

  /** A file name's path that the pattern means and that is refused. */
  lemma SampleFile(ps: seq<string>, i: nat) returns (fs: seq<string>)
    requires NoneHas(ps, '/') && AllClosed(ps) && NoAdjacentStars(PathTokens(ps))
    requires i < |ps| && ps[i] != "**" && EndsInTwoStars(NameTokens(ps[i])) && ps[|ps| - 1] != ""
    requires forall p :: p in ps && p != "**" ==> !StartsDouble(p)
    ensures IsFile(fs) && PathMeans(ps, fs) && !MatchComponents(ps, fs)
  {
    fs := Word(PathTokens(ps), Sample);
    SamplesMeant(ps);
    SamplesRefused(ps, i);
    var n := |ps| - 1;
    if ps[n] != "**" {
      SamplesAreFile(ps, n);
    } else {
      BeforeLast(ps);
      if ps[n - 1] != "" {
        SamplesAreFile(ps, n - 1);
      } else {
        var z := ['a'];
        PathTokensOf(ps);
        SamplesAndMoreRefused(ps, PathTokens(ps), i, z);
        SamplesAndMoreAreFile(ps, z);
        LastStarTakes(NameMeaning(), PathTokens(ps), fs, z);
        fs := fs + [z];
      }
    }
  }

  lemma BeforeLast(ps: seq<string>)
    requires NoAdjacentStars(PathTokens(ps)) && |ps| >= 2 && ps[|ps| - 1] == "**"
    ensures ps[|ps| - 2] != "**"
  {
    PathTokensOf(ps);
  }

  /** For which valid patterns without an escaped star and a star before a `**` component the
      result of `match` is what the pattern means, for every file name: those without a name
      pattern that ends in two stars, and those with one that ends in a lone backslash. */
  lemma MatchExactIff(pattern: string)
    requires !HasMisplaced(pattern) && !EscapedPair(pattern)
    ensures (forall fileName ::
               Matched(pattern, fileName) == Ok(true) <==> PathMeans(Components(pattern), Components(fileName))) <==>
              NamesExact(Components(pattern)) || !AllClosed(Components(pattern))
  {
    var ps := CollapsedComponents(pattern);
    InvalidIff(pattern);
    CollapsedMeaning(pattern, []);
    if NamesExact(Components(pattern)) || !AllClosed(Components(pattern)) {
      forall fileName
        ensures Matched(pattern, fileName) == Ok(true) <==> PathMeans(Components(pattern), Components(fileName))
      {
        CollapsedMeaning(pattern, Components(fileName));
        PathExactIff(ps);
      }
    } else {
      var p :| p in Components(pattern) && p != "**" && EndsInTwoStars(NameTokens(p));
      var fileName := InexactFile(pattern, p);
    }
  }

  lemma InexactFile(pattern: string, p: string) returns (fileName: string)
    requires !Invalid(pattern) && !EscapedPair(pattern) && AllClosed(Components(pattern))
    requires p in Components(pattern) && p != "**" && EndsInTwoStars(NameTokens(p))
    ensures Matched(pattern, fileName) == Ok(false) && PathMeans(Components(pattern), Components(fileName))
  {
    var ps := CollapsedComponents(pattern);
    CollapsedMeaning(pattern, []);
    ValidComponents(pattern);
    var i :| 0 <= i < |ps| && ps[i] == p;
    assert AllClosed(ps) && ps != [""];
    var fs := SampleFile(ps, i);
    fileName := Join(fs, '/');
    FileOf(fs);
    CollapsedMeaning(pattern, fs);
  }

  // ----- Where the condition is needed

  /** A pattern with an escaped star and a star before `**`: the replacement takes away the
      last component, and with it what it would match. */
  lemma EscapedStarCollapsed(p: string, f: string)
    requires p == "\\**/**" && f == "*a/b"
    ensures !Invalid(p) && EscapedPair(p) && NamesExact(Components(p))
    ensures Matched(p, f) == Ok(false) && PathMeans(Components(p), Components(f))
  {
    EscapedStarValid(p);
    EscapedStarRefused(p, f, "\\**");
    EscapedStarMeant(p, f);
  }

  lemma EscapedStarSplit(p: string, f: string)
    requires p == "\\**/**" && f == "*a/b"
    ensures Split(Rstrip(p, '/'), '/') == ["\\**", "**"] && Split(Rstrip(f, '/'), '/') == ["*a", "b"]
    ensures Rstrip(p, '/') == p
  {
    assert Rstrip(p, '/') == p && Rstrip(f, '/') == f;
    SplitTwo(p, "\\**", "**");
    SplitTwo(f, "*a", "b");
  }

  lemma EscapedStarRefused(p: string, f: string, q: string)
    requires p == "\\**/**" && f == "*a/b" && q == "\\**"
    ensures Matched(p, f) == Ok(false)
  {
    EscapedStarValid(p);
    EscapedStarSplit(p, f);
    EscapedStarText(p, q);
    assert '/' !in q && q != "**";
    OneNameLeft(p, f, q, "*a", "b");
  }

  lemma OneNameLeft(p: string, f: string, q: string, a: string, b: string)
    requires !Invalid(p) && CollapsedText(Rstrip(p, '/')) == q && '/' !in q && q != "**"
    requires Split(Rstrip(f, '/'), '/') == [a, b]
    ensures Matched(p, f) == Ok(false)
  {
    SplitJoin([q], '/');
    MatchNothingLeft(q, a, b);
  }

  lemma EscapedStarMeant(p: string, f: string)
    requires p == "\\**/**" && f == "*a/b"
    ensures NamesExact(Components(p)) && PathMeans(Components(p), Components(f))
  {
    EscapedStarSplit(p, f);
    EscapedStarTokens("\\**");
    EscapedStarMeaning();
  }

  lemma EscapedStarValid(p: string)
    requires p == "\\**/**"
    ensures !Invalid(p) && EscapedPair(p)
  {
    assert PairAt(p, 1) && Escaped(p, 1);
  }

  lemma EscapedStarTokens(q: string)
    requires q == "\\**"
    ensures NameTokens(q) == [One(Lit('*')), Star] && NamesExact([q, "**"])
  {
    assert q[2..] == "*" && "*"[1..] == "";
    assert NameTokens(q) == [One(Lit('*'))] + NameTokens("*") && NameTokens("*") == [Star];
  }

  lemma SplitTwo(s: string, a: string, b: string)
    requires '/' !in a && '/' !in b && s == a + ['/'] + b
    ensures Split(s, '/') == [a, b]
  {
    assert [a, b][1..] == [b] && Join([a, b], '/') == s;
    SplitJoin([a, b], '/');
  }

  lemma MatchNothingLeft(q: string, a: string, b: string)
    requires q != "**"
    ensures !MatchComponents([q], [a, b])
  {
    assert [q][1..] == [] && [a, b][1..] == [b];
  }

  lemma EscapedStarText(p: string, q: string)
    requires p == "\\**/**" && q == "\\**"
    ensures CollapsedText(p) == q
  {
    assert PairAt(p, 1) && !PairAt(p, 0);
    assert p[1..] == "**/**" + "";
    ReplaceFirstPair("");
    assert ReplaceAll(p) == q;
    assert !HasPair(q);
  }

  lemma EscapedStarMeaning()
    ensures PathMeans(["\\**", "**"], ["*a", "b"])
  {
    var ts: seq<Token<NameToken>> := [One(Lit('*')), Star];
    EscapedStarTokens("\\**");
    assert Flatten(["*", "a"]) == "*a" by {
      assert ["*", "a"][1..] == ["a"] && ["a"][1..] == [] && "a" + Flatten<char>([]) == "a";
    }
    assert Divides(CharFits, ts, "*a", ["*", "a"]);
    var pieces := [["*a"], ["b"]];
    assert Flatten(pieces) == ["*a", "b"] by {
      assert pieces[1..] == [["b"]] && [["b"]][1..] == [] && ["b"] + Flatten<string>([]) == ["b"];
    }
    var ps := ["\\**", "**"];
    assert PathTokens(ps) == [One("\\**"), Star] by {
      PathTokensOf(ps);
    }
    assert NameMeaning()("\\**", "*a");
    assert Divides(NameMeaning(), PathTokens(ps), ["*a", "b"], pieces);
  }

  /** A pattern that ends in an escaped backslash and two stars: it is not rejected, and a file
      name that it means is not matched. */
  lemma EscapedBackslashStars(p: string, f: string)
    requires p == "a\\\\**" && f == "a\\"
    ensures !Invalid(p) && !EscapedPair(p) && !NamesExact(Components(p))
    ensures Matched(p, f) == Ok(false) && PathMeans(Components(p), Components(f))
  {
    BackslashStars(p, f);
    OneComponent(p);
    OneComponent(f);
    OneNameMatched(p, f);
    OneNameMeant(p, f);
  }

  /** A text of one component. */
  lemma OneComponent(s: string)
    requires '/' !in s
    ensures Components(s) == [s] && CollapsedText(Rstrip(s, '/')) == s && !EscapedPair(s)
  {
    assert Rstrip(s, '/') == s;
    SplitJoin([s], '/');
    forall i | 0 <= i < |s|
      ensures !PairAt(s, i)
    {
      assert i + 2 < |s| ==> s[i + 2] in s;
    }
  }

  lemma OneNameMatched(p: string, f: string)
    requires p != "**" && !Invalid(p) && Components(p) == [p] && Components(f) == [f]
    requires CollapsedText(Rstrip(p, '/')) == p == Rstrip(p, '/')
    ensures Matched(p, f) == Ok(MatchComponent(p, f))
  {
    assert [p][1..] == [] && [f][1..] == [];
    assert MatchComponents([p], [f]) <==> MatchComponent(p, f) && MatchComponents([], []);
  }

  lemma OneNameMeant(p: string, f: string)
    requires p != "**" && NameMeans(p, f)
    ensures PathMeans([p], [f])
  {
    PathTokensOf([p]);
    assert PathTokens([p]) == [One(p)];
    assert Flatten([[f]]) == [f] + Flatten<string>([]) by {
      assert [[f]][1..] == [];
    }
    assert NameMeaning()(p, f);
    assert Divides(NameMeaning(), PathTokens([p]), [f], [[f]]);
  }

  lemma BackslashStars(p: string, f: string)
    requires p == "a\\\\**" && f == "a\\"
    ensures !Invalid(p) && EndsInTwoStars(NameTokens(p)) && !MatchComponent(p, f) && NameMeans(p, f)
  {
    var ts: seq<Token<NameToken>> := [One(Lit('a')), One(Lit('\\')), Star, Star];
    assert p[2] == '\\' && p[3] == '*' && p[4] == '*';
    BackslashStarsTokens(p, p[1..], p[3..], p[4..], ts);
    MatchComponentTokens(p, f);
    StarsAfterBackslash(ts, f);
  }

  lemma BackslashStarsTokens(p: string, q: string, r: string, last: string, ts: seq<Token<NameToken>>)
    requires p == "a\\\\**" && q == p[1..] && r == p[3..] && last == p[4..]
    requires ts == [One(Lit('a')), One(Lit('\\')), Star, Star]
    ensures NameTokens(p) == ts
  {
    assert q[0] == '\\' && q[1] == '\\' && q[2..] == r;
    assert r[0] == '*' && r[1..] == last && last[0] == '*' && last[1..] == "";
    assert NameTokens(last) == [Star] + NameTokens("");
    assert NameTokens(r) == [Star] + NameTokens(last);
    assert NameTokens(q) == [One(Lit('\\'))] + NameTokens(r);
  }

  lemma StarsAfterBackslash(ts: seq<Token<NameToken>>, f: string)
    requires ts == [One(Lit('a')), One(Lit('\\')), Star, Star] && f == "a\\"
    ensures !Matches(CharFits, ts, f) && Means(CharFits, ts, f)
  {
    assert f[0] == 'a' && f[1..][0] == '\\' && f[1..][1..] == "";
    assert ts[1..][0] == One(Lit('\\')) && ts[1..][1..] == [Star, Star];
    assert !Matches(CharFits, [Star, Star], "");
    var pieces: seq<string> := ["a", "\\", "", ""];
    assert Flatten(pieces) == f by {
      assert pieces[1..] == ["\\", "", ""] && pieces[1..][1..] == ["", ""] && ["", ""][1..] == [""] && [""][1..] == [];
    }
    assert Divides(CharFits, ts, f, pieces);
  }
}
