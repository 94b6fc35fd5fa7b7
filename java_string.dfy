/** The two java.lang.String operations the pipeline relies on:
    String.valueOf(int) on non-negative values, and s.split(",") */
module JavaString {

  // ---------------------------------------------------------------------------
  // String.valueOf(int)
  // ---------------------------------------------------------------------------

  predicate IsDigit(c: char) {
    '0' <= c <= '9'
  }

  function Digit(d: nat): (c: char)
    requires d < 10
    ensures IsDigit(c)
  {
    (48 + d) as char
  }

  function DigitValue(c: char): (d: nat)
    requires IsDigit(c)
    ensures d < 10 && Digit(d) == c
  {
    c as int - 48
  }

  /** Decimal representation without sign or leading zeros, as String.valueOf
      prints a non-negative int. */
  function ValueOf(n: nat): (s: string)
    ensures |s| >= 1
    ensures forall i :: 0 <= i < |s| ==> IsDigit(s[i])
    ensures n > 0 ==> s[0] != '0'
  {
    if n < 10 then [Digit(n)] else ValueOf(n / 10) + [Digit(n % 10)]
  }

  /** Reads a string of decimal digits back as a number (the partner of ValueOf). */
  function ParseDecimal(s: string): (n: nat)
    requires forall i :: 0 <= i < |s| ==> IsDigit(s[i])
  {
    if |s| == 0 then 0 else ParseDecimal(s[..|s| - 1]) * 10 + DigitValue(s[|s| - 1])
  }

  lemma {:induction false} ParseValueOf(n: nat)
    ensures ParseDecimal(ValueOf(n)) == n
  {
    if n >= 10 {
      var s := ValueOf(n);
      assert s[..|s| - 1] == ValueOf(n / 10);
      ParseValueOf(n / 10);
    }
  }

  /** Distinct numbers print as distinct strings. */
  lemma ValueOfInjective(m: nat, n: nat)
    requires ValueOf(m) == ValueOf(n)
    ensures m == n
  {
    ParseValueOf(m);
    ParseValueOf(n);
  }

  // ---------------------------------------------------------------------------
  // String.split(",")
  // ---------------------------------------------------------------------------

  const Comma := ','

  /** The substrings between commas, every one of them kept (also the empty
      ones): "a,,b," gives ["a", "", "b", ""]. */
  function Pieces(s: string): (r: seq<string>)
    ensures |r| >= 1
  {
    if |s| == 0 then [""]
    else
      var rest := Pieces(s[1..]);
      if s[0] == Comma then [""] + rest else [[s[0]] + rest[0]] + rest[1..]
  }

  /** The fields written back with commas between them. */
  function JoinOn(fs: seq<string>): (r: string)
    requires |fs| >= 1
  {
    if |fs| == 1 then fs[0] else fs[0] + [Comma] + JoinOn(fs[1..])
  }

  predicate CommaFree(fs: seq<string>) {
    forall i :: 0 <= i < |fs| ==> Comma !in fs[i]
  }

  /** Drops the empty strings at the end of a list: the shortest prefix whose
      last element is non-empty and after which only empty strings follow. */
  function StripTrailingEmpty(ps: seq<string>): (r: seq<string>)
    ensures r <= ps
    ensures |r| > 0 ==> r[|r| - 1] != ""
    ensures forall i :: |r| <= i < |ps| ==> ps[i] == ""
  {
    if |ps| == 0 then []
    else if ps[|ps| - 1] == "" then StripTrailingEmpty(ps[..|ps| - 1])
    else ps
  }

  /** s.split(","): when s holds no comma the result is [s] itself (even for
      the empty string); otherwise all pieces with the trailing empty ones
      removed, so ",".split(",") is empty and "a,b,c,".split(",") has three
      fields. */
  function Split(s: string): (r: seq<string>)
  {
    if Comma !in s then [s] else StripTrailingEmpty(Pieces(s))
  }

  // ---------------------------------------------------------------------------
  // Properties of Pieces and JoinOn
  // ---------------------------------------------------------------------------

  lemma {:induction false} PiecesCommaFree(s: string)
    ensures CommaFree(Pieces(s))
  {
    if |s| > 0 {
      PiecesCommaFree(s[1..]);
    }
  }

  lemma {:induction false} JoinOnConsChar(c: char, fs: seq<string>)
    requires |fs| >= 1
    ensures JoinOn([[c] + fs[0]] + fs[1..]) == [c] + JoinOn(fs)
  {
    var gs := [[c] + fs[0]] + fs[1..];
    assert |gs| == |fs| && gs[0] == [c] + fs[0] && gs[1..] == fs[1..];
    if |fs| == 1 {
      assert JoinOn(gs) == gs[0];
    } else {
      assert JoinOn(gs) == gs[0] + [Comma] + JoinOn(fs[1..]);
    }
  }

  /** Joining the pieces gives back the original string. */
  lemma {:induction false} JoinPieces(s: string)
    ensures JoinOn(Pieces(s)) == s
  {
    if |s| > 0 {
      var rest := Pieces(s[1..]);
      JoinPieces(s[1..]);
      if s[0] == Comma {
        assert ([""] + rest)[1..] == rest;
        assert s == [s[0]] + s[1..];
      } else {
        JoinOnConsChar(s[0], rest);
        assert s == [s[0]] + s[1..];
      }
    }
  }

  /** A comma-free prefix is glued to the first piece of what follows. */
  lemma {:induction false} PiecesPrefix(p: string, t: string)
    requires Comma !in p
    ensures Pieces(p + t) == [p + Pieces(t)[0]] + Pieces(t)[1..]
  {
    if |p| > 0 {
      assert (p + t)[0] == p[0] != Comma;
      assert (p + t)[1..] == p[1..] + t;
      PiecesPrefix(p[1..], t);
      var rest := Pieces(p[1..] + t);
      assert rest[0] == p[1..] + Pieces(t)[0];
      assert rest[1..] == Pieces(t)[1..];
      assert [p[0]] + (p[1..] + Pieces(t)[0]) == p + Pieces(t)[0];
    } else {
      assert p + t == t;
      assert p + Pieces(t)[0] == Pieces(t)[0];
      assert Pieces(t) == [Pieces(t)[0]] + Pieces(t)[1..];
    }
  }

  lemma PiecesSingle(p: string)
    requires Comma !in p
    ensures Pieces(p) == [p]
  {
    PiecesPrefix(p, "");
    assert p + "" == p;
  }

  lemma PiecesCommaThen(p: string, t: string)
    requires Comma !in p
    ensures Pieces(p + [Comma] + t) == [p] + Pieces(t)
  {
    PiecesPrefix(p, [Comma] + t);
    assert p + [Comma] + t == p + ([Comma] + t);
    assert ([Comma] + t)[1..] == t;
    assert Pieces([Comma] + t) == [""] + Pieces(t);
    assert p + "" == p;
  }

  /** Splitting comma-free fields joined by commas gives back the fields. */
  lemma {:induction false} PiecesJoinOn(fs: seq<string>)
    requires |fs| >= 1 && CommaFree(fs)
    ensures Pieces(JoinOn(fs)) == fs
  {
    if |fs| == 1 {
      PiecesSingle(fs[0]);
    } else {
      assert CommaFree(fs[1..]) by {
        forall i | 0 <= i < |fs| - 1 ensures Comma !in fs[1..][i] {
          assert fs[1..][i] == fs[i + 1];
        }
      }
      PiecesJoinOn(fs[1..]);
      PiecesCommaThen(fs[0], JoinOn(fs[1..]));
    }
  }

  lemma {:induction false} JoinOnAppend(fs: seq<string>, gs: seq<string>)
    requires |fs| >= 1 && |gs| >= 1
    ensures JoinOn(fs + gs) == JoinOn(fs) + [Comma] + JoinOn(gs)
  {
    if |fs| == 1 {
      assert (fs + gs)[1..] == gs;
    } else {
      assert (fs + gs)[1..] == fs[1..] + gs;
      JoinOnAppend(fs[1..], gs);
    }
  }

  lemma JoinOnHasComma(fs: seq<string>)
    requires |fs| >= 2
    ensures Comma in JoinOn(fs)
  {
    assert JoinOn(fs)[|fs[0]|] == Comma;
  }

  /** The pieces of s + "," + t are those of s followed by those of t. */
  lemma PiecesAppend(s: string, t: string)
    ensures Pieces(s + [Comma] + t) == Pieces(s) + Pieces(t)
  {
    var fs, gs := Pieces(s), Pieces(t);
    JoinPieces(s);
    JoinPieces(t);
    JoinOnAppend(fs, gs);
    PiecesCommaFree(s);
    PiecesCommaFree(t);
    assert CommaFree(fs + gs) by {
      forall i | 0 <= i < |fs + gs| ensures Comma !in (fs + gs)[i] {
        if i < |fs| { assert (fs + gs)[i] == fs[i]; } else { assert (fs + gs)[i] == gs[i - |fs|]; }
      }
    }
    PiecesJoinOn(fs + gs);
  }

  // ---------------------------------------------------------------------------
  // Properties of Split
  // ---------------------------------------------------------------------------

  /** Every field that split returns is comma-free. */
  lemma SplitCommaFree(s: string)
    ensures CommaFree(Split(s))
  {
    PiecesCommaFree(s);
    var r := Split(s);
    if Comma in s {
      forall i | 0 <= i < |r| ensures Comma !in r[i] {
        assert r[i] == Pieces(s)[i];
      }
    }
  }

  /** Trailing empty fields vanish: comma-free fields whose last one is
      non-empty, followed by any number of empty fields, split back into
      exactly those fields. */
  lemma SplitJoinTrailingEmpty(fs: seq<string>, empties: seq<string>)
    requires |fs| >= 1 && CommaFree(fs) && fs[|fs| - 1] != ""
    requires forall i :: 0 <= i < |empties| ==> empties[i] == ""
    ensures Split(JoinOn(fs + empties)) == fs
  {
    var all := fs + empties;
    assert CommaFree(all) by {
      forall i | 0 <= i < |all| ensures Comma !in all[i] {
        if i < |fs| { assert all[i] == fs[i]; } else { assert all[i] == empties[i - |fs|]; }
      }
    }
    PiecesJoinOn(all);
    if |all| == 1 {
      assert all == fs;
      PiecesSingle(fs[0]);
    } else {
      JoinOnHasComma(all);
      var r := StripTrailingEmpty(all);
      assert all[|fs| - 1] == fs[|fs| - 1];
      assert forall i :: |fs| <= i < |all| ==> all[i] == empties[i - |fs|];
      assert |r| == |fs|;
      assert r == all[..|fs|] == fs;
    }
  }

  /** Round trip: comma-free fields, the last of them non-empty, joined with
      commas and split again give back the same fields. */
  lemma SplitJoin(fs: seq<string>)
    requires |fs| >= 1 && CommaFree(fs) && fs[|fs| - 1] != ""
    ensures Split(JoinOn(fs)) == fs
  {
    SplitJoinTrailingEmpty(fs, []);
    assert fs + [] == fs;
  }

  /** Split counts at least k fields (k >= 2) exactly when s has at least k
      pieces and one of the pieces from the k-th on is non-empty. */
  lemma SplitAtLeast(s: string, k: nat)
    requires k >= 2
    ensures |Split(s)| >= k <==>
      (|Pieces(s)| >= k && exists j :: k - 1 <= j < |Pieces(s)| && Pieces(s)[j] != "")
  {
    var ps := Pieces(s);
    if Comma !in s {
      PiecesSingle(s);
    } else {
      var r := StripTrailingEmpty(ps);
      if |r| >= k {
        assert ps[|r| - 1] == r[|r| - 1];
      }
      if exists j :: k - 1 <= j < |ps| && ps[j] != "" {
        var j :| k - 1 <= j < |ps| && ps[j] != "";
        assert |r| > j;
      }
    }
  }

  /** Removing trailing empty strings from a longer list keeps any prefix
      that already ends in a non-empty string. */
  lemma StripKeepsPrefix(r: seq<string>, all: seq<string>)
    requires |r| >= 1 && r <= all && r[|r| - 1] != ""
    ensures r <= StripTrailingEmpty(all)
  {
    var r2 := StripTrailingEmpty(all);
    var n := |r|;
    assert all[n - 1] == r[n - 1];
    assert |r2| >= n;
    assert r2[..n] == all[..n];
  }

  /** Appending ", t" to a string whose split ends in a non-empty field keeps
      every field of that split, in place. */
  lemma SplitAppend(s: string, t: string)
    requires |Split(s)| >= 1 && Split(s)[|Split(s)| - 1] != ""
    ensures Split(s) <= Split(s + [Comma] + t)
  {
    var ps, qs := Pieces(s), Pieces(t);
    var u := s + [Comma] + t;
    assert Comma in u by { assert u[|s|] == Comma; }
    PiecesAppend(s, t);
    var r := Split(s);
    assert r <= ps by {
      if Comma !in s {
        PiecesSingle(s);
      }
    }
    assert r <= ps + qs;
    StripKeepsPrefix(r, ps + qs);
    assert Split(u) == StripTrailingEmpty(ps + qs);
  }
}
