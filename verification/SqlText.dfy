/** Text as the database compares it: byte order and LIKE. */
module SqlText {
  /** Code point order, which is the byte order of UTF-8. */
  predicate Less(a: string, b: string) {
    b != [] && (a == [] || a[0] < b[0] || (a[0] == b[0] && Less(a[1..], b[1..])))
  }

  lemma {:induction false} LessSelf(t: string)
    ensures !Less(t, t)
  {
    if t != [] { LessSelf(t[1..]); }
  }

  /** ASCII case folding. */
  function Lower(c: char): char {
    if 'A' <= c <= 'Z' then (c as int + 32) as char else c
  }

  /** One backend folds ASCII case in LIKE, the other does not. */
  predicate CharLike(fold: bool, p: char, c: char) {
    p == '_' || p == c || (fold && Lower(p) == Lower(c))
  }

  predicate Like(fold: bool, p: string, t: string)
    decreases |p| + |t|
  {
    if p == [] then t == []
    else if p[0] == '%' then Like(fold, p[1..], t) || (t != [] && Like(fold, p, t[1..]))
    else t != [] && CharLike(fold, p[0], t[0]) && Like(fold, p[1..], t[1..])
  }

  /** `t` fits `p` character by character. */
  predicate Fits(fold: bool, p: string, t: string) {
    |p| == |t| && forall i :: 0 <= i < |p| ==> CharLike(fold, p[i], t[i])
  }

  predicate Literal(p: string) {
    forall i :: 0 <= i < |p| ==> p[i] != '%'
  }

  /** A stretch of pattern without % fits the text's start. */
  lemma {:induction false} LikeLiteral(fold: bool, p: string, rest: string, t: string)
    requires Literal(p)
    ensures Like(fold, p + rest, t) <==> |p| <= |t| && Fits(fold, p, t[..|p|]) && Like(fold, rest, t[|p|..])
    decreases |p|
  {
    if p == [] {
      assert p + rest == rest && t[0..] == t;
    } else if t != [] {
      assert (p + rest)[1..] == p[1..] + rest;
      LikeLiteral(fold, p[1..], rest, t[1..]);
      if |p| <= |t| {
        assert t[1..][..|p| - 1] == t[..|p|][1..] && t[1..][|p| - 1..] == t[|p|..];
        FitsStep(fold, p, t[..|p|]);
      }
    }
  }

  lemma FitsStep(fold: bool, p: string, t: string)
    requires p != [] && |p| == |t|
    ensures Fits(fold, p, t) <==> CharLike(fold, p[0], t[0]) && Fits(fold, p[1..], t[1..])
  {
    if CharLike(fold, p[0], t[0]) && Fits(fold, p[1..], t[1..]) {
      forall i | 0 <= i < |p|
        ensures CharLike(fold, p[i], t[i])
      {
        if i > 0 { assert CharLike(fold, p[1..][i - 1], t[1..][i - 1]); }
      }
    }
  }

  /** % takes up nothing, or a character and whatever more. */
  lemma {:induction false} LikePercentStep(fold: bool, rest: string, t: string)
    ensures Like(fold, "%" + rest, t) <==> Like(fold, rest, t) || (t != [] && Like(fold, "%" + rest, t[1..]))
  {
    assert ("%" + rest)[1..] == rest;
  }

  /** Pattern `rest` goes on at `k`. */
  predicate GoesOn(fold: bool, rest: string, t: string, k: nat) {
    k <= |t| && Like(fold, rest, t[k..])
  }

  lemma {:induction false} GoesOnLater(fold: bool, rest: string, t: string, k: nat)
    requires t != []
    ensures GoesOn(fold, rest, t, k + 1) <==> GoesOn(fold, rest, t[1..], k)
  {
    hide Like;
    if k < |t| { assert t[k + 1..] == t[1..][k..]; }
  }

  /** % takes up any stretch of text: some suffix goes on matching. */
  lemma {:induction false} LikePercent(fold: bool, rest: string, t: string)
    ensures Like(fold, "%" + rest, t) <==> exists k: nat :: GoesOn(fold, rest, t, k)
    decreases |t|
  {
    hide Like, GoesOn;
    LikePercentStep(fold, rest, t);
    GoesOnHere(fold, rest, t);
    if t == [] {
      GoesOnAtEnd(fold, rest);
    } else {
      LikePercent(fold, rest, t[1..]);
      if k: nat :| GoesOn(fold, rest, t[1..], k) { GoesOnLater(fold, rest, t, k); }
      if k: nat :| GoesOn(fold, rest, t, k) && k > 0 { GoesOnLater(fold, rest, t, k - 1); }
    }
  }

  lemma GoesOnHere(fold: bool, rest: string, t: string)
    ensures GoesOn(fold, rest, t, 0) <==> Like(fold, rest, t)
  {
    assert t[0..] == t;
  }

  lemma GoesOnAtEnd(fold: bool, rest: string)
    ensures forall k: nat :: GoesOn(fold, rest, [], k) ==> k == 0
  {
  }

  /** Texts that start with equally long stretches compare by those first. */
  lemma {:induction false} LessByPrefix(a: string, b: string, x: string, y: string)
    requires |a| == |b|
    ensures Less(a + x, b + y) <==> Less(a, b) || (a == b && Less(x, y))
  {
    if a == [] {
      assert a + x == x && b + y == y;
    } else {
      assert (a + x)[1..] == a[1..] + x && (b + y)[1..] == b[1..] + y;
      LessByPrefix(a[1..], b[1..], x, y);
      assert a == [a[0]] + a[1..] && b == [b[0]] + b[1..];
    }
  }
}
