/** SQL LIKE (like_match in src/sql/types.rs). */
module Like {
  import opened Ascii

  // ------------------------------------------------------ declarative meaning

  /** The text that a single pattern character may stand for. */
  predicate Admits(p: char, piece: string) {
    if p == '%' then true
    else if p == '_' then |piece| == 1
    else piece == [p]
  }

  function Join(pieces: seq<string>): string {
    if pieces == [] then "" else Join(pieces[..|pieces| - 1]) + pieces[|pieces| - 1]
  }

  /** pieces cuts text into one admitted piece for each pattern character. */
  ghost predicate Splits(pieces: seq<string>, text: string, pattern: string) {
    && |pieces| == |pattern|
    && Join(pieces) == text
    && forall k :: 0 <= k < |pattern| ==> Admits(pattern[k], pieces[k])
  }

  ghost predicate Denotes(text: string, pattern: string) {
    exists pieces :: Splits(pieces, text, pattern)
  }

  // ------------------------------------------------------ executable form

  function Init(s: string): string
    requires s != ""
  {
    s[..|s| - 1]
  }

  /** Matching by the last character of the pattern. */
  predicate Matches(text: string, pattern: string)
    decreases |text| + |pattern|
  {
    if pattern == "" then text == ""
    else
      var p := pattern[|pattern| - 1];
      if p == '%' then
        Matches(text, Init(pattern)) || (text != "" && Matches(Init(text), pattern))
      else
        text != "" && (p == '_' || p == text[|text| - 1]) && Matches(Init(text), Init(pattern))
  }

  predicate LikeMatch(text: string, pattern: string) {
    Matches(Lower(text), Lower(pattern))
  }

  lemma AddLastPiece(text: string, pattern: string, cut: nat)
    requires pattern != "" && cut <= |text|
    requires Denotes(text[..cut], Init(pattern))
    requires Admits(pattern[|pattern| - 1], text[cut..])
    ensures Denotes(text, pattern)
  {
    var pieces :| Splits(pieces, text[..cut], Init(pattern));
    var longer := pieces + [text[cut..]];
    assert longer[..|longer| - 1] == pieces;
    assert text[..cut] + text[cut..] == text;
    assert Splits(longer, text, pattern);
  }

  lemma TakeLastPiece(text: string, pattern: string) returns (cut: nat)
    requires pattern != "" && Denotes(text, pattern)
    ensures cut <= |text|
    ensures Denotes(text[..cut], Init(pattern))
    ensures Admits(pattern[|pattern| - 1], text[cut..])
  {
    var pieces :| Splits(pieces, text, pattern);
    var shorter := pieces[..|pieces| - 1];
    cut := |Join(shorter)|;
    assert text[..cut] == Join(shorter) && text[cut..] == pieces[|pieces| - 1];
    assert Splits(shorter, text[..cut], Init(pattern));
  }

  /** The executable form decides the declarative meaning: % is any split, _ is one character. */
  lemma {:induction false} MatchesIsMeaning(text: string, pattern: string)
    ensures Matches(text, pattern) <==> Denotes(text, pattern)
    decreases |text| + |pattern|
  {
    if pattern == "" {
      assert text == "" ==> Splits([], text, pattern);
    } else {
      MatchesIsMeaning(text, Init(pattern));
      if text != "" {
        MatchesIsMeaning(Init(text), Init(pattern));
        MatchesIsMeaning(Init(text), pattern);
      }
      if Matches(text, pattern) {
        MeaningOfMatch(text, pattern);
      }
      if Denotes(text, pattern) {
        MatchOfMeaning(text, pattern);
      }
    }
  }

  lemma MeaningOfMatch(text: string, pattern: string)
    requires pattern != "" && Matches(text, pattern)
    requires Matches(text, Init(pattern)) ==> Denotes(text, Init(pattern))
    requires text != "" && Matches(Init(text), Init(pattern)) ==> Denotes(Init(text), Init(pattern))
    requires text != "" && Matches(Init(text), pattern) ==> Denotes(Init(text), pattern)
    ensures Denotes(text, pattern)
  {
    var p := pattern[|pattern| - 1];
    if p == '%' && Matches(text, Init(pattern)) {
      assert text[..|text|] == text;
      AddLastPiece(text, pattern, |text|);
    } else if p == '%' {
      var cut := TakeLastPiece(Init(text), pattern);
      assert Init(text)[..cut] == text[..cut];
      AddLastPiece(text, pattern, cut);
    } else {
      AddLastPiece(text, pattern, |text| - 1);
    }
  }

  lemma MatchOfMeaning(text: string, pattern: string)
    requires pattern != "" && Denotes(text, pattern)
    requires Denotes(text, Init(pattern)) ==> Matches(text, Init(pattern))
    requires text != "" && Denotes(Init(text), Init(pattern)) ==> Matches(Init(text), Init(pattern))
    requires text != "" && Denotes(Init(text), pattern) ==> Matches(Init(text), pattern)
    ensures Matches(text, pattern)
  {
    var p := pattern[|pattern| - 1];
    var cut := TakeLastPiece(text, pattern);
    if p == '%' {
      if cut == |text| {
        assert text[..cut] == text;
      } else {
        assert Init(text)[..cut] == text[..cut];
        AddLastPiece(Init(text), pattern, cut);
      }
    }
  }

  /** like_match on case-folded text: cell (i, j) of the table decides whether the first i
      characters are denoted by the first j pattern characters. */
  method LikeTable(text: string, pattern: string) returns (dp: array2<bool>)
    ensures dp.Length0 == |text| + 1 && dp.Length1 == |pattern| + 1
    ensures forall i, j :: 0 <= i <= |text| && 0 <= j <= |pattern| ==>
              (dp[i, j] <==> Denotes(text[..i], pattern[..j]))
  {
    dp := new bool[|text| + 1, |pattern| + 1]((_, _) => false);
    dp[0, 0] := true;
    for j := 1 to |pattern| + 1
      invariant forall b :: 0 <= b < j ==> (dp[0, b] <==> Matches(text[..0], pattern[..b]))
      invariant forall b :: j <= b <= |pattern| ==> !dp[0, b]
      invariant forall a :: 1 <= a <= |text| ==> !dp[a, 0]
    {
      assert Init(pattern[..j]) == pattern[..j - 1];
      if pattern[j - 1] == '%' {
        dp[0, j] := dp[0, j - 1];
      }
    }
    for i := 1 to |text| + 1
      invariant forall a, b :: 0 <= a < i && 0 <= b <= |pattern| ==> (dp[a, b] <==> Matches(text[..a], pattern[..b]))
      invariant forall a :: i <= a <= |text| ==> !dp[a, 0]
    {
      assert Init(text[..i]) == text[..i - 1];
      for j := 1 to |pattern| + 1
        invariant forall a, b :: 0 <= a < i && 0 <= b <= |pattern| ==> (dp[a, b] <==> Matches(text[..a], pattern[..b]))
        invariant forall a :: i <= a <= |text| ==> !dp[a, 0]
        invariant forall b :: 0 <= b < j ==> (dp[i, b] <==> Matches(text[..i], pattern[..b]))
      {
        assert Init(pattern[..j]) == pattern[..j - 1];
        var c := pattern[j - 1];
        dp[i, j] := if c == '%' then dp[i, j - 1] || dp[i - 1, j]
                    else if c == '_' then dp[i - 1, j - 1]
                    else c == text[i - 1] && dp[i - 1, j - 1];
      }
    }
    forall i, j | 0 <= i <= |text| && 0 <= j <= |pattern|
      ensures Matches(text[..i], pattern[..j]) <==> Denotes(text[..i], pattern[..j])
    {
      MatchesIsMeaning(text[..i], pattern[..j]);
    }
  }

  /** like_match: the answer is the last cell. */
  method RunLikeMatch(text: string, pattern: string) returns (r: bool)
    ensures r <==> Denotes(Lower(text), Lower(pattern))
    ensures r == LikeMatch(text, pattern)
  {
    var t, p := Lower(text), Lower(pattern);
    var dp := LikeTable(t, p);
    r := dp[|t|, |p|];
    assert t[..|t|] == t && p[..|p|] == p;
    MatchesIsMeaning(t, p);
  }
}
