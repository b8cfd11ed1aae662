/** Matching with stars, over any kind of element: the recursion that
    lithops/libs/globber/globber.py uses twice, for the characters of a name and for the
    components of a path, and what it means. */
module StarPatterns {
  import opened Chunks

  datatype Token<T> = Star | One(value: T)

  /** The matcher: branch by branch the recursion of _match_components, and that of
      _match_component once a name pattern is cut into tokens. */
  predicate Matches<T, E>(ok: (T, E) -> bool, ts: seq<Token<T>>, f: seq<E>)
    decreases |ts| + |f|
  {
    if ts == [] then f == []
    else if f == [] then |ts| == 1 && ts[0].Star?
    else if ts[0].Star? then Matches(ok, ts, f[1..]) || Matches(ok, ts[1..], f)
    else ok(ts[0].value, f[0]) && Matches(ok, ts[1..], f[1..])
  }

  /** What one token stands for: any piece, or one fitting element. */
  ghost predicate Fits<T(!new), E(!new)>(ok: (T, E) -> bool, t: Token<T>, piece: seq<E>) {
    t.One? ==> |piece| == 1 && ok(t.value, piece[0])
  }

  /** A division of the text among the tokens. */
  ghost predicate Divides<T(!new), E(!new)>(ok: (T, E) -> bool, ts: seq<Token<T>>, f: seq<E>, pieces: seq<seq<E>>) {
    && |pieces| == |ts| && Flatten(pieces) == f
    && forall i :: 0 <= i < |ts| ==> Fits(ok, ts[i], pieces[i])
  }

  /** What a pattern means: the text can be divided among its tokens. */
  ghost predicate Means<T(!new), E(!new)>(ok: (T, E) -> bool, ts: seq<Token<T>>, f: seq<E>) {
    exists pieces :: Divides(ok, ts, f, pieces)
  }

  predicate EndsInTwoStars<T>(ts: seq<Token<T>>) {
    |ts| >= 2 && ts[|ts| - 1].Star? && ts[|ts| - 2].Star?
  }

  predicate NoAdjacentStars<T>(ts: seq<Token<T>>) {
    forall i :: 0 < i < |ts| ==> !(ts[i - 1].Star? && ts[i].Star?)
  }

  /** A division in which the last of two final stars gets something. */
  ghost predicate DividesStrictly<T(!new), E(!new)>(ok: (T, E) -> bool, ts: seq<Token<T>>, f: seq<E>,
                                                    pieces: seq<seq<E>>) {
    Divides(ok, ts, f, pieces) && (EndsInTwoStars(ts) ==> pieces[|ts| - 1] != [])
  }

  lemma DividesFront<T(!new), E(!new)>(ok: (T, E) -> bool, ts: seq<Token<T>>, f: seq<E>, piece: seq<E>,
                                       pieces: seq<seq<E>>)
    requires ts != [] && piece <= f && Fits(ok, ts[0], piece) && Divides(ok, ts[1..], f[|piece|..], pieces)
    ensures Divides(ok, ts, f, [piece] + pieces)
  {
    assert ([piece] + pieces)[1..] == pieces;
    assert piece + f[|piece|..] == f;
    forall i | 0 <= i < |ts|
      ensures Fits(ok, ts[i], ([piece] + pieces)[i])
    {
      if i > 0 {
        assert ts[i] == ts[1..][i - 1];
      }
    }
  }

  lemma DividesRest<T(!new), E(!new)>(ok: (T, E) -> bool, ts: seq<Token<T>>, f: seq<E>, pieces: seq<seq<E>>)
    requires ts != [] && Divides(ok, ts, f, pieces)
    ensures pieces[0] <= f && Fits(ok, ts[0], pieces[0]) && Divides(ok, ts[1..], f[|pieces[0]|..], pieces[1..])
  {
    assert f == pieces[0] + Flatten(pieces[1..]);
    assert f[|pieces[0]|..] == Flatten(pieces[1..]);
  }

  /** One more element for a leading star, and one less. */
  lemma StarTakes<T(!new), E(!new)>(ok: (T, E) -> bool, ts: seq<Token<T>>, f: seq<E>, pieces: seq<seq<E>>)
    requires ts != [] && ts[0].Star? && f != [] && Divides(ok, ts, f[1..], pieces)
    ensures Divides(ok, ts, f, pieces[0 := [f[0]] + pieces[0]])
  {
    DividesRest(ok, ts, f[1..], pieces);
    var piece := [f[0]] + pieces[0];
    assert f == [f[0]] + f[1..];
    assert f[1..][|pieces[0]|..] == f[|piece|..];
    DividesFront(ok, ts, f, piece, pieces[1..]);
    assert pieces[0 := piece] == [piece] + pieces[1..];
  }

  lemma StarGives<T(!new), E(!new)>(ok: (T, E) -> bool, ts: seq<Token<T>>, f: seq<E>, pieces: seq<seq<E>>)
    requires ts != [] && ts[0].Star? && Divides(ok, ts, f, pieces) && pieces[0] != []
    ensures f != [] && Divides(ok, ts, f[1..], pieces[0 := pieces[0][1..]])
  {
    DividesRest(ok, ts, f, pieces);
    var piece := pieces[0][1..];
    assert f[1..][|piece|..] == f[|pieces[0]|..];
    DividesFront(ok, ts, f[1..], piece, pieces[1..]);
    assert pieces[0 := piece] == [piece] + pieces[1..];
  }

  /** Whatever the matcher accepts can be divided, strictly. */
  lemma {:induction false} Sound<T(!new), E(!new)>(ok: (T, E) -> bool, ts: seq<Token<T>>, f: seq<E>)
    requires Matches(ok, ts, f)
    ensures exists pieces :: DividesStrictly(ok, ts, f, pieces)
    decreases |ts| + |f|
  {
    if ts == [] {
      assert DividesStrictly(ok, ts, f, []);
    } else if f == [] {
      var nothing: seq<E> := [];
      assert Flatten([nothing]) == nothing + Flatten<E>([]);
      assert DividesStrictly(ok, ts, f, [nothing]);
    } else if ts[0].Star? && Matches(ok, ts, f[1..]) {
      Sound(ok, ts, f[1..]);
      var pieces :| DividesStrictly(ok, ts, f[1..], pieces);
      StarTakes(ok, ts, f, pieces);
      assert DividesStrictly(ok, ts, f, pieces[0 := [f[0]] + pieces[0]]);
    } else {
      var piece := if ts[0].Star? then [] else [f[0]];
      var rest := f[|piece|..];
      Sound(ok, ts[1..], rest);
      var pieces :| DividesStrictly(ok, ts[1..], rest, pieces);
      DividesFront(ok, ts, f, piece, pieces);
      if |ts| == 2 && EndsInTwoStars(ts) {
        assert Flatten(pieces) == pieces[0] + Flatten(pieces[1..]) == pieces[0];
      }
      assert DividesStrictly(ok, ts, f, [piece] + pieces);
    }
  }

  lemma {:induction false} EmptyPieces<E>(pieces: seq<seq<E>>)
    requires Flatten(pieces) == []
    ensures forall i :: 0 <= i < |pieces| ==> pieces[i] == []
  {
    if pieces != [] {
      assert |pieces[0]| + |Flatten(pieces[1..])| == 0;
      EmptyPieces(pieces[1..]);
      assert forall i :: 1 <= i < |pieces| ==> pieces[i] == pieces[1..][i - 1];
    }
  }

  lemma EmptyText<T(!new), E(!new)>(ok: (T, E) -> bool, ts: seq<Token<T>>, pieces: seq<seq<E>>)
    requires ts != [] && DividesStrictly(ok, ts, [], pieces)
    ensures |ts| == 1 && ts[0].Star?
  {
    EmptyPieces(pieces);
    forall i | 0 <= i < |ts|
      ensures ts[i].Star?
    {
      assert Fits(ok, ts[i], pieces[i]);
    }
  }

  /** Whatever can be divided strictly the matcher accepts. */
  lemma {:induction false} Complete<T(!new), E(!new)>(ok: (T, E) -> bool, ts: seq<Token<T>>, f: seq<E>,
                                                      pieces: seq<seq<E>>)
    requires DividesStrictly(ok, ts, f, pieces)
    ensures Matches(ok, ts, f)
    decreases |ts| + |f|
  {
    if ts == [] {
    } else if f == [] {
      EmptyText(ok, ts, pieces);
    } else {
      DividesRest(ok, ts, f, pieces);
      if ts[0].Star? && pieces[0] != [] {
        StarGives(ok, ts, f, pieces);
        Complete(ok, ts, f[1..], pieces[0 := pieces[0][1..]]);
      } else {
        Complete(ok, ts[1..], f[|pieces[0]|..], pieces[1..]);
      }
    }
  }

  /** Exactly what the matcher accepts, for all patterns and texts: the text can be divided
      among the tokens, where two stars at the end must not both be left empty. */
  lemma MatchesIff<T(!new), E(!new)>(ok: (T, E) -> bool, ts: seq<Token<T>>, f: seq<E>)
    ensures Matches(ok, ts, f) <==> exists pieces :: DividesStrictly(ok, ts, f, pieces)
  {
    if Matches(ok, ts, f) {
      Sound(ok, ts, f);
    }
    if pieces :| DividesStrictly(ok, ts, f, pieces) {
      Complete(ok, ts, f, pieces);
    }
  }

  lemma ExactUnlessTwoStars<T(!new), E(!new)>(ok: (T, E) -> bool, ts: seq<Token<T>>, f: seq<E>)
    requires !EndsInTwoStars(ts)
    ensures Matches(ok, ts, f) <==> Means(ok, ts, f)
  {
    MatchesIff(ok, ts, f);
    if pieces :| Divides(ok, ts, f, pieces) {
      assert DividesStrictly(ok, ts, f, pieces);
    }
  }

  ghost predicate FitsSome<T(!new), E(!new)>(ok: (T, E) -> bool, t: T) {
    exists x :: ok(t, x)
  }

  /** Every token that is not a star fits some element. */
  ghost predicate Satisfiable<T(!new), E(!new)>(ok: (T, E) -> bool, ts: seq<Token<T>>) {
    forall i :: 0 <= i < |ts| && ts[i].One? ==> FitsSome(ok, ts[i].value)
  }

  lemma SatisfiableFront<T(!new), E(!new)>(ok: (T, E) -> bool, t: Token<T>, rest: seq<Token<T>>)
    ensures Satisfiable(ok, [t] + rest) <==> (t.One? ==> FitsSome(ok, t.value)) && Satisfiable(ok, rest)
  {
    var ts := [t] + rest;
    assert forall i :: 0 <= i < |rest| ==> rest[i] == ts[i + 1];
    if Satisfiable(ok, ts) {
      assert ts[0] == t;
      forall i | 0 <= i < |rest| && rest[i].One?
        ensures FitsSome(ok, rest[i].value)
      {
        assert ts[i + 1].One?;
      }
    }
  }

  /** Every token that is not a star fits the element chosen for it. */
  predicate Chosen<T, E>(ok: (T, E) -> bool, ts: seq<Token<T>>, choice: T -> E) {
    forall i :: 0 <= i < |ts| && ts[i].One? ==> ok(ts[i].value, choice(ts[i].value))
  }

  ghost function Choice<T(!new), E(!new)>(ok: (T, E) -> bool, default: E): T -> E {
    (t: T) => if FitsSome(ok, t) then var x :| ok(t, x); x else default
  }

  lemma ChoiceFits<T(!new), E(!new)>(ok: (T, E) -> bool, ts: seq<Token<T>>, default: E)
    requires Satisfiable(ok, ts)
    ensures Chosen(ok, ts, Choice(ok, default))
  {
    forall i | 0 <= i < |ts| && ts[i].One?
      ensures ok(ts[i].value, Choice(ok, default)(ts[i].value))
    {
      assert FitsSome(ok, ts[i].value);
    }
  }

  function Part<T, E>(t: Token<T>, choice: T -> E): seq<E> {
    if t.Star? then [] else [choice(t.value)]
  }

  /** A shortest text for a pattern: the chosen elements, and nothing for the stars. */
  function Word<T, E>(ts: seq<Token<T>>, choice: T -> E): seq<E> {
    if ts == [] then [] else Part(ts[0], choice) + Word(ts[1..], choice)
  }

  lemma ChosenRest<T, E>(ok: (T, E) -> bool, ts: seq<Token<T>>, choice: T -> E)
    requires ts != [] && Chosen(ok, ts, choice)
    ensures Chosen(ok, ts[1..], choice)
  {
    forall i | 0 <= i < |ts[1..]| && ts[1..][i].One?
      ensures ok(ts[1..][i].value, choice(ts[1..][i].value))
    {
      assert ts[i + 1].One?;
    }
  }

  lemma {:induction false} WordMeans<T(!new), E(!new)>(ok: (T, E) -> bool, ts: seq<Token<T>>, choice: T -> E)
    requires Chosen(ok, ts, choice)
    ensures Means(ok, ts, Word(ts, choice))
  {
    var f := Word(ts, choice);
    if ts == [] {
      assert Divides(ok, ts, f, []);
    } else {
      ChosenRest(ok, ts, choice);
      WordMeans(ok, ts[1..], choice);
      var rest := Word(ts[1..], choice);
      var piece := Part(ts[0], choice);
      assert f == piece + rest && f[|piece|..] == rest;
      var pieces :| Divides(ok, ts[1..], rest, pieces);
      DividesFront(ok, ts, f, piece, pieces);
    }
  }

  function Ones<T>(ts: seq<Token<T>>): nat {
    if ts == [] then 0 else Ones(ts[1..]) + if ts[0].One? then 1 else 0
  }

  lemma {:induction false} WordLength<T, E>(ts: seq<Token<T>>, choice: T -> E)
    ensures |Word(ts, choice)| == Ones(ts)
  {
    if ts != [] {
      WordLength(ts[1..], choice);
    }
  }

  /** A text is at least as long as there are tokens that are not stars. */
  lemma {:induction false} LongEnough<T(!new), E(!new)>(ok: (T, E) -> bool, ts: seq<Token<T>>, f: seq<E>,
                                                        pieces: seq<seq<E>>)
    requires Divides(ok, ts, f, pieces)
    ensures |f| >= Ones(ts)
  {
    if ts != [] {
      DividesRest(ok, ts, f, pieces);
      LongEnough(ok, ts[1..], f[|pieces[0]|..], pieces[1..]);
    }
  }

  /** A shortest text can be divided in one way only: the stars get nothing, and each other
      token the element chosen for it. */
  lemma {:induction false} WordDivides<T(!new), E(!new)>(ok: (T, E) -> bool, ts: seq<Token<T>>, choice: T -> E,
                                                         pieces: seq<seq<E>>, i: nat)
    requires Divides(ok, ts, Word(ts, choice), pieces) && i < |ts|
    ensures pieces[i] == if ts[i].Star? then [] else [choice(ts[i].value)]
    ensures ts[i].One? ==> ok(ts[i].value, choice(ts[i].value))
  {
    var f, rest := Word(ts, choice), Word(ts[1..], choice);
    DividesRest(ok, ts, f, pieces);
    LongEnough(ok, ts[1..], f[|pieces[0]|..], pieces[1..]);
    WordLength(ts, choice);
    WordLength(ts[1..], choice);
    assert |pieces[0]| <= |f| - |rest|;
    assert f[|f| - |rest|..] == rest;
    if i > 0 {
      WordDivides(ok, ts[1..], choice, pieces[1..], i - 1);
    }
  }

  lemma {:induction false} WordSplit<T, E>(a: seq<Token<T>>, b: seq<Token<T>>, choice: T -> E)
    ensures Word(a + b, choice) == Word(a, choice) + Word(b, choice)
  {
    if a == [] {
      assert a + b == b;
    } else {
      WordSplit(a[1..], b, choice);
      assert (a + b)[1..] == a[1..] + b && (a + b)[0] == a[0];
    }
  }

  /** The last token's part of a shortest text. */
  lemma WordLast<T, E>(ts: seq<Token<T>>, choice: T -> E)
    requires ts != []
    ensures Word(ts, choice) == Word(ts[..|ts| - 1], choice) + Part(ts[|ts| - 1], choice)
  {
    var front, last := ts[..|ts| - 1], ts[|ts| - 1];
    assert ts == front + [last];
    WordSplit(front, [last], choice);
    assert [last][1..] == [];
    assert Word([last], choice) == Part(last, choice) + Word<T, E>([], choice);
  }

  lemma FlattenLast<E>(pieces: seq<seq<E>>)
    requires pieces != []
    ensures Flatten(pieces) == Flatten(pieces[..|pieces| - 1]) + pieces[|pieces| - 1]
  {
    var front, last := pieces[..|pieces| - 1], pieces[|pieces| - 1];
    assert pieces == front + [last];
    FlattenConcat(front, [last]);
    assert Flatten([last]) == last + Flatten<E>([]);
  }

  /** One more element for a final star. */
  lemma LastStarTakes<T(!new), E(!new)>(ok: (T, E) -> bool, ts: seq<Token<T>>, f: seq<E>, z: E)
    requires ts != [] && ts[|ts| - 1].Star? && Means(ok, ts, f)
    ensures Means(ok, ts, f + [z])
  {
    var pieces :| Divides(ok, ts, f, pieces);
    var n := |ts| - 1;
    var more := pieces[n := pieces[n] + [z]];
    FlattenLast(pieces);
    FlattenLast(more);
    assert more[..n] == pieces[..n];
    assert Flatten(more) == (Flatten(pieces[..n]) + pieces[n]) + [z];
    assert Divides(ok, ts, f + [z], more);
  }

  /** A shortest text with one more element, for the final star: if the token before that star
      does not fit it, every other token again gets the element chosen for it. */
  lemma WordAndMore<T(!new), E(!new)>(ok: (T, E) -> bool, ts: seq<Token<T>>, choice: T -> E, z: E,
                                      pieces: seq<seq<E>>, i: nat)
    requires |ts| >= 2 && ts[|ts| - 1].Star? && ts[|ts| - 2].One? && !ok(ts[|ts| - 2].value, z)
    requires Divides(ok, ts, Word(ts, choice) + [z], pieces) && i < |ts| && ts[i].One?
    ensures ok(ts[i].value, choice(ts[i].value))
  {
    var n := |ts| - 1;
    WordLast(ts, choice);
    EndPiece(ok, ts, Word(ts, choice), z, pieces);
    FrontDivides(ok, ts, choice, z, pieces);
    WordDivides(ok, ts[..n], choice, pieces[..n], i);
  }

  lemma FrontDivides<T(!new), E(!new)>(ok: (T, E) -> bool, ts: seq<Token<T>>, choice: T -> E, z: E,
                                       pieces: seq<seq<E>>)
    requires ts != [] && Word(ts, choice) == Word(ts[..|ts| - 1], choice)
    requires Divides(ok, ts, Word(ts, choice) + [z], pieces) && pieces[|ts| - 1] != []
    ensures Divides(ok, ts[..|ts| - 1], Word(ts[..|ts| - 1], choice), pieces[..|ts| - 1])
  {
    var n := |ts| - 1;
    var front, first, word := ts[..n], pieces[..n], Word(ts, choice);
    DividesEnd(ok, ts, word + [z], pieces);
    LongEnough(ok, front, Flatten(first), first);
    WordLength(front, choice);
    SamePrefix(Flatten(first), pieces[n], word, [z]);
  }

  lemma SamePrefix<E>(a: seq<E>, b: seq<E>, c: seq<E>, d: seq<E>)
    requires a + b == c + d && |a| >= |c| && |b| >= |d|
    ensures a == c
  {
    assert |a| == |c|;
    assert a == (a + b)[..|a|] && c == (c + d)[..|c|];
  }

  lemma DividesEnd<T(!new), E(!new)>(ok: (T, E) -> bool, ts: seq<Token<T>>, f: seq<E>, pieces: seq<seq<E>>)
    requires ts != [] && Divides(ok, ts, f, pieces)
    ensures var n := |ts| - 1;
            Flatten(pieces[..n]) + pieces[n] == f && Divides(ok, ts[..n], Flatten(pieces[..n]), pieces[..n])
  {
    FlattenLast(pieces);
  }

  lemma EndPiece<T(!new), E(!new)>(ok: (T, E) -> bool, ts: seq<Token<T>>, f: seq<E>, z: E, pieces: seq<seq<E>>)
    requires |ts| >= 2 && ts[|ts| - 2].One? && Divides(ok, ts, f + [z], pieces)
    ensures ok(ts[|ts| - 2].value, pieces[|ts| - 2][0])
    ensures pieces[|ts| - 1] == [] ==> pieces[|ts| - 2] == [z]
  {
    var n := |ts| - 1;
    assert Fits(ok, ts[n - 1], pieces[n - 1]);
    if pieces[n] == [] {
      DividesEnd(ok, ts, f + [z], pieces);
      DividesEnd(ok, ts[..n], Flatten(pieces[..n]), pieces[..n]);
      assert (f + [z])[|f|] == z;
    }
  }

  /** A shortest text is refused if a token does not accept the element chosen for it. */
  lemma WordNotAccepted<T(!new), E(!new)>(ok: (T, E) -> bool, ts: seq<Token<T>>, choice: T -> E, i: nat)
    requires i < |ts| && ts[i].One? && !ok(ts[i].value, choice(ts[i].value))
    ensures !Matches(ok, ts, Word(ts, choice))
  {
    MatchesIff(ok, ts, Word(ts, choice));
    if pieces :| DividesStrictly(ok, ts, Word(ts, choice), pieces) {
      WordDivides(ok, ts, choice, pieces, i);
    }
  }

  lemma WordAndMoreNotAccepted<T(!new), E(!new)>(ok: (T, E) -> bool, ts: seq<Token<T>>, choice: T -> E, z: E, i: nat)
    requires |ts| >= 2 && ts[|ts| - 1].Star? && ts[|ts| - 2].One? && !ok(ts[|ts| - 2].value, z)
    requires i < |ts| && ts[i].One? && !ok(ts[i].value, choice(ts[i].value))
    ensures !Matches(ok, ts, Word(ts, choice) + [z])
  {
    MatchesIff(ok, ts, Word(ts, choice) + [z]);
    if pieces :| DividesStrictly(ok, ts, Word(ts, choice) + [z], pieces) {
      WordAndMore(ok, ts, choice, z, pieces, i);
    }
  }

  ghost predicate Exact<T(!new), E(!new)>(ok: (T, E) -> bool, ts: seq<Token<T>>) {
    forall f: seq<E> :: Matches(ok, ts, f) <==> Means(ok, ts, f)
  }

  /** A pattern with a token that fits nothing means nothing, and nothing is accepted. */
  lemma UnsatisfiableExact<T(!new), E(!new)>(ok: (T, E) -> bool, ts: seq<Token<T>>, f: seq<E>)
    requires !Satisfiable(ok, ts)
    ensures !Means(ok, ts, f) && !Matches(ok, ts, f)
  {
    var i :| 0 <= i < |ts| && ts[i].One? && !FitsSome(ok, ts[i].value);
    if pieces :| Divides(ok, ts, f, pieces) {
      assert Fits(ok, ts[i], pieces[i]);
    }
    MatchesIff(ok, ts, f);
  }

  lemma WordRefused<T(!new), E(!new)>(ok: (T, E) -> bool, ts: seq<Token<T>>, choice: T -> E)
    requires EndsInTwoStars(ts)
    ensures !Matches(ok, ts, Word(ts, choice))
  {
    MatchesIff(ok, ts, Word(ts, choice));
    if pieces :| DividesStrictly(ok, ts, Word(ts, choice), pieces) {
      WordDivides(ok, ts, choice, pieces, |ts| - 1);
    }
  }

  /** For which patterns the matcher is exact on all texts: those that do not end in two stars,
      and those with a token that fits nothing at all. */
  lemma ExactIff<T(!new), E(!new, 00)>(ok: (T, E) -> bool, ts: seq<Token<T>>)
    ensures Exact(ok, ts) <==> !EndsInTwoStars(ts) || !Satisfiable(ok, ts)
  {
    if EndsInTwoStars(ts) && Satisfiable(ok, ts) {
      var default: E := *;
      ChoiceFits(ok, ts, default);
      WordMeans(ok, ts, Choice(ok, default));
      WordRefused(ok, ts, Choice(ok, default));
    } else {
      forall f: seq<E>
        ensures Matches(ok, ts, f) <==> Means(ok, ts, f)
      {
        if EndsInTwoStars(ts) {
          UnsatisfiableExact(ok, ts, f);
        } else {
          ExactUnlessTwoStars(ok, ts, f);
        }
      }
    }
  }

  /** Two final stars, on the empty text. */
  lemma TwoStarsRefuseEmpty<T(!new), E(!new)>(ok: (T, E) -> bool)
    ensures !Matches(ok, [Star, Star], []) && Means(ok, [Star, Star], [])
  {
    var nothing: seq<E> := [];
    assert Flatten([nothing]) == nothing + Flatten<E>([]);
    assert Flatten([nothing, nothing]) == nothing + Flatten([nothing]) by {
      assert [nothing, nothing][1..] == [nothing];
    }
    assert Divides(ok, [Star, Star], [], [nothing, nothing]);
  }

  /** The meaning depends on the fitting of elements only. */
  lemma SameMeaning<T(!new), E(!new)>(ok: (T, E) -> bool, ok': (T, E) -> bool, ts: seq<Token<T>>, f: seq<E>)
    requires forall t: T, x: E :: One(t) in ts ==> (ok(t, x) <==> ok'(t, x))
    ensures Means(ok, ts, f) <==> Means(ok', ts, f)
  {
    forall pieces
      ensures Divides(ok, ts, f, pieces) <==> Divides(ok', ts, f, pieces)
    {
      if |pieces| == |ts| {
        forall i | 0 <= i < |ts|
          ensures Fits(ok, ts[i], pieces[i]) <==> Fits(ok', ts[i], pieces[i])
        {
          assert ts[i] in ts;
        }
      }
    }
  }

  // ----- Collapsing adjacent stars

  /** One pass over the tokens, two adjacent stars becoming one. */
  function Collapsed<T>(ts: seq<Token<T>>): seq<Token<T>> {
    if ts == [] then []
    else if |ts| >= 2 && ts[0].Star? && ts[1].Star? then [Star] + Collapsed(ts[2..])
    else [ts[0]] + Collapsed(ts[1..])
  }

  lemma MeansFront<T(!new), E(!new)>(ok: (T, E) -> bool, ts: seq<Token<T>>, f: seq<E>)
    requires ts != []
    ensures Means(ok, ts, f) <==>
            exists k :: 0 <= k <= |f| && Fits(ok, ts[0], f[..k]) && Means(ok, ts[1..], f[k..])
  {
    if pieces :| Divides(ok, ts, f, pieces) {
      DividesRest(ok, ts, f, pieces);
      var k := |pieces[0]|;
      assert f[..k] == pieces[0];
      assert Fits(ok, ts[0], f[..k]) && Means(ok, ts[1..], f[k..]);
    }
    if k :| 0 <= k <= |f| && Fits(ok, ts[0], f[..k]) && Means(ok, ts[1..], f[k..]) {
      var pieces :| Divides(ok, ts[1..], f[k..], pieces);
      DividesFront(ok, ts, f, f[..k], pieces);
    }
  }

  /** Two stars in front mean what one does. */
  lemma TwoStarsAreOne<T(!new), E(!new)>(ok: (T, E) -> bool, ts: seq<Token<T>>, f: seq<E>)
    requires |ts| >= 2 && ts[0].Star? && ts[1].Star?
    ensures Means(ok, ts, f) <==> Means(ok, ts[1..], f)
  {
    MeansFront(ok, ts, f);
    if k :| 0 <= k <= |f| && Means(ok, ts[1..], f[k..]) {
      MeansFront(ok, ts[1..], f[k..]);
      var m :| 0 <= m <= |f[k..]| && Means(ok, ts[1..][1..], f[k..][m..]);
      assert f[k..][m..] == f[k + m..];
      MeansFront(ok, ts[1..], f);
      assert Fits(ok, ts[1..][0], f[..k + m]);
    }
    if Means(ok, ts[1..], f) {
      assert f[0..] == f && Fits(ok, ts[0], f[..0]);
    }
  }

  /** A pass keeps the meaning. */
  lemma {:induction false} CollapsedKeeps<T(!new), E(!new)>(ok: (T, E) -> bool, ts: seq<Token<T>>, f: seq<E>)
    ensures Means(ok, Collapsed(ts), f) <==> Means(ok, ts, f)
    decreases |ts|
  {
    if ts != [] {
      var twice := |ts| >= 2 && ts[0].Star? && ts[1].Star?;
      var rest := if twice then ts[2..] else ts[1..];
      var once := [ts[0]] + rest;
      assert Collapsed(ts) == [ts[0]] + Collapsed(rest);
      MeansFront(ok, Collapsed(ts), f);
      MeansFront(ok, once, f);
      forall k | 0 <= k <= |f|
        ensures Means(ok, Collapsed(rest), f[k..]) <==> Means(ok, rest, f[k..])
      {
        CollapsedKeeps(ok, rest, f[k..]);
      }
      assert Collapsed(ts)[1..] == Collapsed(rest) && once[1..] == rest;
      if twice {
        assert ts[1..] == once;
        TwoStarsAreOne(ok, ts, f);
      } else {
        assert ts == once;
      }
    }
  }
}
