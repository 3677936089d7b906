/** What the "contains" filter finds. */
module ContainsFilter {
  import opened Wrappers
  import opened SqlLexer
  import opened ReservedWords
  import opened LikeSearch

  /** A character LIKE does not take for itself. */
  predicate IsActive(escape: Option<char>, c: char) { c == '%' || c == '_' || escape == Some(c) }

  predicate HasActive(escape: Option<char>, s: string) { exists i :: 0 <= i < |s| && IsActive(escape, s[i]) }

  /** What a database's LIKE has: SQLite has no escape character of its own, MySQL the backslash. */
  predicate KnownEscape(escape: Option<char>) { escape == None || escape == Some('\\') }

  /** A text the pattern matches, shorter than the value or different where the value is active. */
  function Sample(escape: Option<char>, x: char, s: string): (r: string)
    ensures |r| <= |s|
  {
    if s == "" then ""
    else if escape == Some(s[0]) then (if |s| == 1 then "%" else [s[1]] + Sample(escape, x, s[2..]))
    else [if s[0] == '%' || s[0] == '_' then x else s[0]] + Sample(escape, x, s[1..])
  }

  lemma SkipOne(escape: Option<char>, p: string, v: string)
    requires escape != Some('%') && v != "" && Like(escape, p, v[1..])
    ensures Like(escape, "%" + p, v)
  {
    assert ("%" + p)[1..] == p;
    assert Like(escape, "%" + p, v[1..]);
  }

  lemma {:induction false} SampleMatches(escape: Option<char>, x: char, s: string)
    requires KnownEscape(escape)
    ensures Like(escape, s + "%", Sample(escape, x, s))
    decreases |s|
  {
    var p, v := s + "%", Sample(escape, x, s);
    if s == "" {
      AnythingMatches(escape, "");
      assert p == "%";
    } else if escape == Some(s[0]) {
      if |s| == 1 {
        assert p == [s[0], '%'] && p[2..] == "" && v[1..] == "";
      } else {
        SampleMatches(escape, x, s[2..]);
        assert p[2..] == s[2..] + "%" && v[1..] == Sample(escape, x, s[2..]) && p[1] == s[1];
      }
    } else {
      SampleMatches(escape, x, s[1..]);
      assert p[1..] == s[1..] + "%" && v[1..] == Sample(escape, x, s[1..]);
      if s[0] == '%' {
        SkipOne(escape, s[1..] + "%", v);
        assert "%" + (s[1..] + "%") == p;
      }
    }
  }

  lemma {:induction false} SampleDiffers(escape: Option<char>, x: char, s: string)
    requires HasActive(escape, s) && KnownEscape(escape) && x != '%' && x != '_'
    ensures Sample(escape, x, s) != s
    decreases |s|
  {
    var v := Sample(escape, x, s);
    if escape == Some(s[0]) {
      if |s| > 1 { assert |v| < |s|; }
    } else if s[0] != '%' && s[0] != '_' {
      var i :| 0 <= i < |s| && IsActive(escape, s[i]);
      assert s[1..][i - 1] == s[i];
      SampleDiffers(escape, x, s[1..]);
      assert v[1..] == Sample(escape, x, s[1..]);
    }
  }

  lemma {:induction false} PlainPrefix(escape: Option<char>, t: string, v: string)
    requires KnownEscape(escape) && !HasActive(escape, t)
    ensures Like(escape, t + "%", v) <==> StartsAt(v, 0, t)
    decreases |t|
  {
    if t == "" {
      AnythingMatches(escape, v);
      assert t + "%" == "%" && v[0..0] == t;
    } else {
      assert !IsActive(escape, t[0]);
      assert forall i :: 0 <= i < |t[1..]| ==> t[1..][i] == t[i + 1];
      assert (t + "%")[1..] == t[1..] + "%";
      if v != "" {
        PlainPrefix(escape, t[1..], v[1..]);
        HeadAndTail(v, t);
      }
    }
  }

  lemma HeadAndTail(v: string, t: string)
    requires v != "" && t != ""
    ensures StartsAt(v, 0, t) <==> v[0] == t[0] && StartsAt(v[1..], 0, t[1..])
  {
    if |t| <= |v| {
      assert v[0..|t|] == [v[0]] + v[1..][0..|t| - 1];
      assert t == [t[0]] + t[1..];
    }
  }

  lemma PlainContains(escape: Option<char>, t: string, v: string)
    requires KnownEscape(escape) && !HasActive(escape, t)
    ensures Like(escape, "%" + (t + "%"), v) <==> Contains(v, t)
  {
    LeadingAnything(escape, t + "%", v);
    forall k: nat | k <= |v| ensures Like(escape, t + "%", v[k..]) <==> StartsAt(v, k, t) {
      PlainPrefix(escape, t, v[k..]);
      if k + |t| <= |v| { assert v[k..][0..|t|] == v[k..k + |t|]; }
    }
  }

  lemma NoRoom(v: string, t: string)
    requires |v| <= |t| && v != t
    ensures !Contains(v, t)
  {
    forall k: nat | k <= |v| ensures !StartsAt(v, k, t) {
      if k == 0 && |t| == |v| { assert v[0..|t|] == v; }
    }
  }

  lemma ActiveFindsMore(escape: Option<char>, x: char, t: string)
    requires KnownEscape(escape) && HasActive(escape, t) && x != '%' && x != '_'
    ensures var v := Sample(escape, x, t); Like(escape, "%" + (t + "%"), v) && !Contains(v, t)
  {
    var v := Sample(escape, x, t);
    SampleMatches(escape, x, t);
    assert v[0..] == v;
    LeadingAnything(escape, t + "%", v);
    SampleDiffers(escape, x, t);
    NoRoom(v, t);
  }

  /** A folding that leaves what it has folded alone. */
  predicate Settles(fold: char -> char) { Folds(fold) && forall c: char :: fold(fold(c)) == fold(c) }

  lemma {:induction false} SampleIsFolded(escape: Option<char>, fold: char -> char, s: string)
    requires Settles(fold) && forall i :: 0 <= i < |s| ==> fold(s[i]) == s[i]
    ensures forall i :: 0 <= i < |Sample(escape, fold('x'), s)| ==>
              fold(Sample(escape, fold('x'), s)[i]) == Sample(escape, fold('x'), s)[i]
    decreases |s|
  {
    assert IsSpecial('%');
    if s != "" {
      if |s| > 1 { SampleIsFolded(escape, fold, s[2..]); }
      SampleIsFolded(escape, fold, s[1..]);
    }
  }

  lemma FoldedStays(fold: char -> char, s: string)
    requires forall i :: 0 <= i < |s| ==> fold(s[i]) == s[i]
    ensures Fold(fold, s) == s
  {
  }

  lemma ContainsPattern(fold: char -> char, t: string)
    requires Folds(fold)
    ensures Fold(fold, "%" + t + "%") == "%" + (Fold(fold, t) + "%")
  {
    FoldJoin(fold, "%" + t, "%");
    FoldJoin(fold, "%", t);
    assert IsSpecial('%');
    assert Fold(fold, "%") == "%" by { assert "%"[1..] == ""; }
    Associate("%", Fold(fold, t), "%");
  }

  /** Folding makes no active character and removes none. */
  lemma ActiveFolded(escape: Option<char>, fold: char -> char, t: string)
    requires Folds(fold) && KnownEscape(escape)
    ensures HasActive(escape, Fold(fold, t)) <==> HasActive(escape, t)
  {
    forall i | 0 <= i < |t| ensures IsActive(escape, Fold(fold, t)[i]) <==> IsActive(escape, t[i]) {
      assert IsSpecial(t[i]) <==> IsSpecial(Fold(fold, t)[i]);
    }
  }

  /**
   The "contains" filter binds its value unescaped, unlike the list search box. On a database whose
   LIKE has this escape character and folds letters this way, it finds exactly the cells that contain
   the value -- letters that fold alike being alike -- if and only if nothing in the value is active:
   no % or _, and where the backslash escapes, no backslash.
   */
  lemma ContainsFindsContaining(escape: Option<char>, fold: char -> char, t: string)
    requires KnownEscape(escape) && Settles(fold)
    ensures (forall v: string :: LikeFolded(escape, fold, "%" + t + "%", v) <==> Contains(Fold(fold, v), Fold(fold, t)))
            <==> !HasActive(escape, t)
  {
    var u, x := Fold(fold, t), fold('x');
    ContainsPattern(fold, t);
    ActiveFolded(escape, fold, t);
    if HasActive(escape, t) {
      assert !IsSpecial('x') && !IsSpecial(x);
      ActiveFindsMore(escape, x, u);
      SampleIsFolded(escape, fold, u);
      FoldedStays(fold, Sample(escape, x, u));
    } else {
      forall v: string ensures LikeFolded(escape, fold, "%" + t + "%", v) <==> Contains(Fold(fold, v), u) {
        PlainContains(escape, u, Fold(fold, v));
      }
    }
  }

  /** A wildcard finds what does not contain it, in either database. */
  lemma WildcardsFindMore()
    ensures Like(None, "%" + "50%" + "%", "50") && !Contains("50", "50%")
  {
    assert "%" + "50%" + "%" == "%" + ("50%" + "%");
    SampleOfFifty();
  }

  lemma SampleOfFifty()
    ensures Like(None, "%" + ("50%" + "%"), "50") && !Contains("50", "50%")
  {
    AnythingMatches(None, "");
    assert "50%%"[1..] == "0%%" && "0%%"[1..] == "%%" && "%%"[1..] == "%";
    assert "50%" + "%" == "50%%" && "50"[1..] == "0" && "0"[1..] == "";
    assert Like(None, "%%", "") && Like(None, "0%%", "0") && Like(None, "50%%", "50");
    assert "%" + ("50%" + "%") == ['%'] + "50%%" && (['%'] + "50%%")[1..] == "50%%";
  }

  /** Where the backslash escapes, a value with one misses the cell that is that very value. */
  lemma BackslashMisses()
    ensures !Like(Some('\\'), "%" + "a\\b" + "%", "a\\b") && Contains("a\\b", "a\\b")
  {
    var p, v := "a\\b" + "%", "a\\b";
    assert "%" + "a\\b" + "%" == "%" + p;
    LeadingAnything(Some('\\'), p, v);
    assert StartsAt(v, 0, v) by { assert v[0..|v|] == v; }
    assert p[1..][2..] == "%" && p[1..][0] == '\\' && p[1..][1] == 'b';
    forall k: nat | k <= |v| ensures !Like(Some('\\'), p, v[k..]) {
      if k == 0 { assert v[0..] == v && v[1..][0] == '\\'; }
    }
  }

  /** LIKE folds letters: a value finds a cell that holds it in the other case only. */
  lemma OtherCaseIsFound()
    ensures Settles(LowerChar) && LikeFolded(None, LowerChar, "%" + "a" + "%", "A") && !Contains("A", "a")
  {
    LowerCharFolds();
    ContainsPattern(LowerChar, "a");
    PlainContains(None, "a", "a");
    assert Fold(LowerChar, "a") == "a" && Fold(LowerChar, "A") == "a";
    assert StartsAt("a", 0, "a") by { assert "a"[0..1] == "a"; }
    NoRoom("A", "a");
  }
}
