/** Splitting a string on one separator character, the way Rust's
    `str::split(char)` does, and the whitespace-free token list that the
    command parser builds from it.

    `SplitOn(s, c)` yields every piece between separators, including empty
    pieces, so it always has one more element than `s` has separators.
    Its partner is `Join`: the pieces are exactly the separator-free
    strings that `Join` glues back into `s` (the contract of `SplitOn`
    and `SplitUnique`).
 */
module Split {

  /** Concatenates `ps`, putting one `c` between consecutive pieces. */
  function Join(ps: seq<string>, c: char): string
  {
    if |ps| == 0 then ""
    else if |ps| == 1 then ps[0]
    else ps[0] + [c] + Join(ps[1..], c)
  }

  /** `Join` starts with the first piece, followed by the separator and the
      join of the rest when there is more than one piece. */
  lemma JoinHead(ps: seq<string>, c: char)
    requires |ps| >= 1
    ensures |ps[0]| <= |Join(ps, c)| && Join(ps, c)[..|ps[0]|] == ps[0]
    ensures |ps| == 1 ==> Join(ps, c) == ps[0]
    ensures |ps| > 1 ==> |ps[0]| < |Join(ps, c)| && Join(ps, c)[|ps[0]|] == c
                         && Join(ps, c)[|ps[0]| + 1..] == Join(ps[1..], c)
  {
    if |ps| > 1 {
      var j := Join(ps, c);
      assert j == ps[0] + [c] + Join(ps[1..], c);
      assert j[..|ps[0]|] == ps[0];
      assert j[|ps[0]| + 1..] == Join(ps[1..], c);
    }
  }

  /** The pieces of `s` between occurrences of `c`, in order. */
  function SplitOn(s: string, c: char): (ps: seq<string>)
    ensures |ps| >= 1
    ensures forall i :: 0 <= i < |ps| ==> c !in ps[i]
    ensures Join(ps, c) == s
  {
    if |s| == 0 then [""]
    else if s[0] == c then
      var rest := SplitOn(s[1..], c);
      assert ([""] + rest)[1..] == rest;
      [""] + rest
    else
      var rest := SplitOn(s[1..], c);
      var ps := [[s[0]] + rest[0]] + rest[1..];
      assert ps[1..] == rest[1..];
      assert s == [s[0]] + s[1..];
      ps
  }

  /** A string without the separator is a single piece. */
  lemma {:induction false} SplitOnFree(s: string, c: char)
    requires c !in s
    ensures SplitOn(s, c) == [s]
  {
    if |s| > 0 {
      assert c !in s[1..] by {
        forall i | 0 <= i < |s[1..]| ensures s[1..][i] != c {
          assert s[1..][i] == s[i + 1];
        }
      }
      SplitOnFree(s[1..], c);
    }
  }

  /** One unfolding of `SplitOn` on a non-empty string. */
  lemma SplitOnCons(x: char, t: string, c: char)
    ensures x == c ==> SplitOn([x] + t, c) == [""] + SplitOn(t, c)
    ensures x != c ==> SplitOn([x] + t, c) == [[x] + SplitOn(t, c)[0]] + SplitOn(t, c)[1..]
  {
    assert ([x] + t)[0] == x;
    assert ([x] + t)[1..] == t;
  }

  /** Splitting distributes over a separator: the pieces of `a + [c] + b`
      are the pieces of `a` followed by the pieces of `b`. */
  lemma {:induction false} SplitOnSeparator(a: string, b: string, c: char)
    ensures SplitOn(a + [c] + b, c) == SplitOn(a, c) + SplitOn(b, c)
    decreases |a|
  {
    if |a| == 0 {
      assert a + [c] + b == [c] + b;
      SplitOnCons(c, b, c);
    } else {
      var t := a[1..] + [c] + b;
      assert a + [c] + b == [a[0]] + t;
      assert a == [a[0]] + a[1..];
      SplitOnSeparator(a[1..], b, c);
      SplitOnCons(a[0], t, c);
      SplitOnCons(a[0], a[1..], c);
      PrependPiece(a[0], c, SplitOn(a[1..], c), SplitOn(b, c));
    }
  }

  /** The sequence-level step of `SplitOnSeparator`: putting a character in
      front commutes with appending the pieces of the rest. */
  lemma PrependPiece(x: char, c: char, r1: seq<string>, r2: seq<string>)
    requires |r1| >= 1
    ensures x == c ==> [""] + (r1 + r2) == ([""] + r1) + r2
    ensures x != c ==> [[x] + (r1 + r2)[0]] + (r1 + r2)[1..] == ([[x] + r1[0]] + r1[1..]) + r2
  {
    assert (r1 + r2)[0] == r1[0];
    assert (r1 + r2)[1..] == r1[1..] + r2;
  }

  /** `SplitOn` is the only way to cut `s` into separator-free pieces that
      join back to `s`. */
  lemma {:induction false} SplitUnique(ps: seq<string>, c: char)
    requires |ps| >= 1
    requires forall i :: 0 <= i < |ps| ==> c !in ps[i]
    ensures SplitOn(Join(ps, c), c) == ps
  {
    if |ps| == 1 {
      SplitOnFree(ps[0], c);
    } else {
      assert c !in ps[0];
      SplitOnFree(ps[0], c);
      SplitUnique(ps[1..], c);
      SplitOnSeparator(ps[0], Join(ps[1..], c), c);
      assert ps == [ps[0]] + ps[1..];
    }
  }

  /** The non-empty pieces of `ps`, in their original order. */
  function NonEmpty(ps: seq<string>): (r: seq<string>)
    ensures forall i :: 0 <= i < |r| ==> r[i] != ""
    ensures forall i :: 0 <= i < |r| ==> r[i] in ps
    ensures forall i :: 0 <= i < |ps| && ps[i] != "" ==> ps[i] in r
  {
    if |ps| == 0 then []
    else if ps[0] == "" then NonEmpty(ps[1..])
    else [ps[0]] + NonEmpty(ps[1..])
  }

  lemma {:induction false} NonEmptyAppend(xs: seq<string>, ys: seq<string>)
    ensures NonEmpty(xs + ys) == NonEmpty(xs) + NonEmpty(ys)
  {
    if |xs| > 0 {
      assert (xs + ys)[0] == xs[0];
      assert (xs + ys)[1..] == xs[1..] + ys;
      NonEmptyAppend(xs[1..], ys);
    } else {
      assert xs + ys == ys;
    }
  }

  /** The space-separated words of a command line: the non-empty pieces of
      splitting on `' '` (only the space character, not tabs or newlines). */
  function Tokens(s: string): seq<string>
  {
    NonEmpty(SplitOn(s, ' '))
  }

  /** True iff `s` contains some character other than a space. */
  predicate HasWord(s: string)
  {
    exists i :: 0 <= i < |s| && s[i] != ' '
  }

  /** Every token is a non-empty, space-free substring of the command line. */
  lemma TokensAreWords(s: string)
    ensures AllWords(Tokens(s))
  {
    var ps := SplitOn(s, ' ');
    forall i | 0 <= i < |Tokens(s)| ensures ' ' !in Tokens(s)[i] {
      assert Tokens(s)[i] in ps;
    }
  }

  /** The token list is empty exactly when the line holds nothing but spaces. */
  lemma {:induction false} TokensEmptyIff(s: string)
    ensures Tokens(s) == [] <==> !HasWord(s)
  {
    if |s| > 0 {
      TokensEmptyIff(s[1..]);
      var rest := SplitOn(s[1..], ' ');
      if s[0] == ' ' {
        assert SplitOn(s, ' ') == [""] + rest;
        assert ([""] + rest)[1..] == rest;
        assert Tokens(s) == Tokens(s[1..]);
        if HasWord(s[1..]) {
          var i :| 0 <= i < |s[1..]| && s[1..][i] != ' ';
          assert s[i + 1] != ' ';
        }
        if HasWord(s) {
          var i :| 0 <= i < |s| && s[i] != ' ';
          assert s[1..][i - 1] != ' ';
        }
      } else {
        var first := [s[0]] + rest[0];
        assert SplitOn(s, ' ')[0] == first;
        assert first != "";
        assert Tokens(s)[0] == first;
      }
    }
  }

  /** A word without spaces is a single token. */
  lemma TokensOfWord(w: string)
    requires w != "" && ' ' !in w
    ensures Tokens(w) == [w]
  {
    SplitOnFree(w, ' ');
    var ps := SplitOn(w, ' ');
    assert ps[0] == w && ps[1..] == [];
    assert NonEmpty(ps) == [w] + NonEmpty([]);
  }

  /** A space separates tokens: the tokens of `a + " " + b` are those of
      `a` followed by those of `b`. With `TokensOfWord` and `Tokens("") == []`
      this determines `Tokens` on every string. */
  lemma TokensOfSeparated(a: string, b: string)
    ensures Tokens(a + " " + b) == Tokens(a) + Tokens(b)
  {
    SplitOnSeparator(a, b, ' ');
    NonEmptyAppend(SplitOn(a, ' '), SplitOn(b, ' '));
  }

  /** Words: non-empty and free of spaces. */
  predicate AllWords(ws: seq<string>)
  {
    forall i :: 0 <= i < |ws| ==> ws[i] != "" && ' ' !in ws[i]
  }

  lemma {:induction false} NonEmptyKeepsWords(ws: seq<string>)
    requires forall i :: 0 <= i < |ws| ==> ws[i] != ""
    ensures NonEmpty(ws) == ws
  {
    if |ws| > 0 {
      NonEmptyKeepsWords(ws[1..]);
      assert ws == [ws[0]] + ws[1..];
    }
  }

  /** Joining words with single spaces and tokenizing gives the words back. */
  lemma TokensOfJoin(ws: seq<string>)
    requires |ws| >= 1 && AllWords(ws)
    ensures Tokens(Join(ws, ' ')) == ws
  {
    SplitUnique(ws, ' ');
    NonEmptyKeepsWords(ws);
  }
}
