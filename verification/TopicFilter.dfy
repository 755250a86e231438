/** Topic names and filters as sequences of levels, section 4.7 of MQTT 3.1.1. */
module TopicLevels {

  /** The pieces between separators; the empty topic has one empty level. */
  function Levels(s: seq<char>): (r: seq<seq<char>>)
    ensures |r| >= 1
  {
    if |s| == 0 then [[]]
    else
      var rest := Levels(s[1..]);
      if s[0] == '/' then [[]] + rest else [[s[0]] + rest[0]] + rest[1..]
  }

  /** A wildcard stands alone in its level and '#' only in the last one. */
  predicate WellFormed(f: seq<seq<char>>) {
    forall i :: 0 <= i < |f| ==>
      && ('+' in f[i] ==> f[i] == ['+'])
      && ('#' in f[i] ==> f[i] == ['#'] && i == |f| - 1)
  }

  /** Section 4.7.1: '+' takes exactly one level, a final '#' any number of levels, none included. */
  predicate Matches(f: seq<seq<char>>, n: seq<seq<char>>) {
    if |f| == 0 then |n| == 0
    else if f[0] == ['#'] then |f| == 1
    else |n| > 0 && (f[0] == ['+'] || f[0] == n[0]) && Matches(f[1..], n[1..])
  }

  /** What the two-cursor scan accepts: '+' takes one level that is not empty, and '#' at least one
      level, the first of which is not empty. */
  predicate Accepts(f: seq<seq<char>>, n: seq<seq<char>>) {
    if |f| == 0 then |n| == 0
    else if f[0] == ['#'] then |f| == 1 && |n| > 0 && n[0] != []
    else |n| > 0 && (if f[0] == ['+'] then n[0] != [] else f[0] == n[0]) && Accepts(f[1..], n[1..])
  }

  lemma {:induction false} AcceptsIsSound(f: seq<seq<char>>, n: seq<seq<char>>)
    requires Accepts(f, n)
    ensures Matches(f, n)
  {
    if |f| > 0 && f[0] != ['#'] {
      AcceptsIsSound(f[1..], n[1..]);
    }
  }

  /** Where the scan refuses a match the standard allows: the first wildcard that meets nothing, or an
      empty level. */
  predicate WildcardMeetsEmpty(f: seq<seq<char>>, n: seq<seq<char>>) {
    |f| > 0 &&
    (if f[0] == ['#'] then |n| == 0 || n[0] == []
     else |n| > 0 && ((f[0] == ['+'] && n[0] == []) || WildcardMeetsEmpty(f[1..], n[1..])))
  }

  /** The scan differs from section 4.7.1 exactly there. */
  lemma {:induction false} AcceptsExactly(f: seq<seq<char>>, n: seq<seq<char>>)
    ensures Accepts(f, n) <==> Matches(f, n) && !WildcardMeetsEmpty(f, n)
  {
    if |f| > 0 && f[0] != ['#'] && |n| > 0 {
      AcceptsExactly(f[1..], n[1..]);
    }
  }

  /** A name without empty levels is refused against section 4.7.1 only where '#' would have to match
      the level above it. */
  lemma {:induction false} OnlyTheParentIsLost(f: seq<seq<char>>, n: seq<seq<char>>)
    requires forall i :: 0 <= i < |n| ==> n[i] != []
    requires Matches(f, n) && !Accepts(f, n)
    ensures |f| == |n| + 1 && f[|n|] == ['#']
  {
    if f[0] != ['#'] {
      assert n[0] != [];
      OnlyTheParentIsLost(f[1..], n[1..]);
    }
  }
}

/** The two-cursor matcher. */
module TopicFilter {
  import opened TopicLevels

  predicate Wildcard(c: char) {
    c == '+' || c == '#'
  }

  /** What a well-formed filter leaves behind a cursor: wildcards stand alone, and none is in the level
      the cursor is in the middle of. */
  predicate Safe(f: seq<char>, atLevelStart: bool) {
    && WellFormed(Levels(f))
    && (!atLevelStart ==> forall c :: c in Levels(f)[0] ==> !Wildcard(c))
  }

  predicate Answer(f: seq<char>, n: seq<char>) {
    Accepts(Levels(f), Levels(n))
  }

  lemma LevelsStep(s: seq<char>)
    requires |s| > 0
    ensures s[0] == '/' ==> Levels(s)[0] == [] && Levels(s)[1..] == Levels(s[1..])
    ensures s[0] != '/' ==> Levels(s)[0] == [s[0]] + Levels(s[1..])[0] && Levels(s)[1..] == Levels(s[1..])[1..]
  {}

  lemma WellFormedTail(f: seq<seq<char>>)
    requires WellFormed(f) && |f| > 0
    ensures WellFormed(f[1..])
  {
    assert forall i :: 0 <= i < |f[1..]| ==> f[1..][i] == f[i + 1];
  }

  lemma WellFormedHead(f: seq<seq<char>>, head: seq<char>)
    requires WellFormed(f) && |f| > 0 && forall c :: c in head ==> !Wildcard(c)
    ensures WellFormed([head] + f[1..])
  {
    assert forall i :: 1 <= i < |f| ==> ([head] + f[1..])[i] == f[i];
  }

  /** What follows the first character of a level is free of wildcards, and empty after a wildcard. */
  lemma RestOfLevel(l: seq<seq<char>>, c: char, rest: seq<char>)
    requires WellFormed(l) && |l| > 0 && l[0] == [c] + rest
    ensures forall d :: d in rest ==> !Wildcard(d)
    ensures Wildcard(c) ==> rest == []
    ensures c == '#' ==> |l| == 1
  {
    assert c in l[0];
    assert forall d :: d in rest ==> d in l[0];
    assert |l[0]| == 1 + |rest|;
  }

  lemma NoLevels(s: seq<char>)
    requires Levels(s) == [[]]
    ensures s == []
  {}

  lemma SafeStep(f: seq<char>, start: bool)
    requires Safe(f, start) && |f| > 0
    ensures Safe(f[1..], f[0] == '/')
    ensures Wildcard(f[0]) ==> Levels(f)[0] == [f[0]] && Levels(f[1..])[0] == []
    ensures f[0] == '#' ==> |f| == 1
  {
    hide WellFormed;
    var l, r := Levels(f), Levels(f[1..]);
    LevelsStep(f);
    if f[0] == '/' {
      WellFormedTail(l);
    } else {
      RestOfLevel(l, f[0], r[0]);
      WellFormedHead(l, r[0]);
      assert r == [r[0]] + l[1..];
      if f[0] == '#' {
        assert r == [[]];
        NoLevels(f[1..]);
      }
    }
  }

  lemma LiteralStep(f: seq<char>, n: seq<char>, start: bool)
    requires Safe(f, start) && |f| > 0 && |n| > 0 && f[0] == n[0] && !Wildcard(f[0])
    ensures Answer(f, n) <==> Answer(f[1..], n[1..])
  {
    hide WellFormed;
    LevelsStep(f);
    LevelsStep(n);
    if f[0] != '/' {
      var r, q := Levels(f[1..])[0], Levels(n[1..])[0];
      RestOfLevel(Levels(f), f[0], r);
      assert Levels(f)[0][0] == f[0];
      assert r == q <==> [f[0]] + r == [n[0]] + q by { assert ([f[0]] + r)[1..] == r && ([n[0]] + q)[1..] == q; }
      assert r == ['+'] ==> '+' in r;
      assert r == ['#'] ==> '#' in r;
    }
  }

  lemma {:induction false} LevelPrefix(n: seq<char>, k: nat)
    requires k <= |n| && '/' !in n[..k] && (k == |n| || n[k] == '/')
    ensures Levels(n)[0] == n[..k] && Levels(n[k..])[0] == [] && Levels(n)[1..] == Levels(n[k..])[1..]
  {
    if k > 0 {
      assert n[0] in n[..k] && n[1..][..k - 1] == n[..k][1..] && n[1..][k - 1..] == n[k..];
      LevelPrefix(n[1..], k - 1);
      assert n[..k] == [n[0]] + n[1..][..k - 1];
    } else {
      assert n[0..] == n && n[..0] == [];
    }
  }

  lemma PlusStep(f: seq<char>, n: seq<char>, k: nat, start: bool)
    requires Safe(f, start) && |f| > 0 && f[0] == '+'
    requires 0 < k <= |n| && '/' !in n[..k] && (k == |n| || n[k] == '/')
    ensures Answer(f, n) <==> Answer(f[1..], n[k..])
  {
    SafeStep(f, start);
    LevelPrefix(n, k);
    assert Levels(f)[1..] == Levels(f[1..])[1..];
  }

  /** The answer when one of the cursors has reached its end, or the characters under them differ. */
  lemma Refused(f: seq<char>, n: seq<char>, start: bool)
    requires Safe(f, start)
    requires |f| == 0 || |n| == 0 || (n[0] == '/' && f[0] != '/') || (!Wildcard(f[0]) && f[0] != n[0])
    ensures Answer(f, n) <==> |f| == 0 && |n| == 0
  {
    hide WellFormed;
    if |f| > 0 { LevelsStep(f); }
    if |n| > 0 { LevelsStep(n); }
    if |f| == 0 {
      assert Levels(f) == [[]] && Levels(f)[1..] == [];
      assert |n| > 0 && n[0] == '/' ==> |Levels(n)[1..]| > 0;
      assert |n| > 0 && n[0] != '/' ==> Levels(n)[0] != [];
      assert |n| == 0 ==> |Levels(n)[1..]| == 0;
      assert Accepts(Levels(f), Levels(n)) <==> Levels(n)[0] == [] && Accepts([], Levels(n)[1..]);
    } else if |n| == 0 {
      assert Levels(n) == [[]] && Levels(n)[1..] == [];
      assert f[0] == '/' ==> |Levels(f)[1..]| > 0;
      assert f[0] != '/' ==> Levels(f)[0] != [];
    } else {
      assert f[0] != '/' ==> Levels(f)[0][0] == f[0];
      assert n[0] != '/' ==> Levels(n)[0][0] == n[0];
      assert !Accepts(Levels(f), Levels(n));
    }
  }

  /** Moves a cursor to the last character of its level. */
  method LastOfLevel(topic_name: seq<char>, from: nat) returns (curn: nat)
    requires from < |topic_name| && topic_name[from] != '/'
    ensures from <= curn < |topic_name| && '/' !in topic_name[from..curn + 1]
    ensures curn + 1 == |topic_name| || topic_name[curn + 1] == '/'
  {
    curn := from;
    var nextpos := curn + 1;
    while nextpos < |topic_name| && topic_name[nextpos] != '/'
      invariant from < nextpos == curn + 1 <= |topic_name|
      invariant '/' !in topic_name[from..nextpos]
    {
      curn := curn + 1;
      nextpos := curn + 1;
    }
  }

  lemma HashStep(f: seq<char>, n: seq<char>, start: bool)
    requires Safe(f, start) && |f| > 0 && f[0] == '#' && |n| > 0 && n[0] != '/'
    ensures f[1..] == [] && Answer(f, n) && Answer([], [])
  {
    SafeStep(f, start);
    assert Levels(f) == [['#']];
    assert Levels(n)[0][0] == n[0];
    assert Levels([]) == [[]];
  }

  method IsTopicMatched(topic_filter: seq<char>, topic_name: seq<char>) returns (matched: bool)
    requires WellFormed(Levels(topic_filter))
    ensures matched <==> Accepts(Levels(topic_filter), Levels(topic_name))
  {
    var curf, curn := 0, 0;
    ghost var start := true;
    assert topic_filter[0..] == topic_filter && topic_name[0..] == topic_name;
    while curf < |topic_filter| && curn < |topic_name|
      invariant 0 <= curf <= |topic_filter| && 0 <= curn <= |topic_name|
      invariant Safe(topic_filter[curf..], start)
      invariant Answer(topic_filter[curf..], topic_name[curn..]) <==> Answer(topic_filter, topic_name)
    {
      hide Safe, Answer, Levels, WellFormed, Accepts;
      var f, n := topic_filter[curf], topic_name[curn];
      ghost var restF, restN := topic_filter[curf..], topic_name[curn..];
      assert restF[1..] == topic_filter[curf + 1..] && restN[1..] == topic_name[curn + 1..];
      if n == '/' && f != '/' { break; }
      if f != '+' && f != '#' && f != n { break; }
      SafeStep(restF, start);
      if f == '+' {
        ghost var from := curn;
        curn := LastOfLevel(topic_name, curn);
        ghost var k := curn + 1 - from;
        assert restN[..k] == topic_name[from..curn + 1] && restN[k..] == topic_name[curn + 1..];
        PlusStep(restF, restN, k, start);
      } else if f == '#' {
        HashStep(restF, restN, start);
        assert topic_name[|topic_name|..] == [];
        curn := |topic_name| - 1;
      } else {
        LiteralStep(restF, restN, start);
      }
      curf, curn := curf + 1, curn + 1;
      start := f == '/';
    }
    Refused(topic_filter[curf..], topic_name[curn..], start);
    matched := curn == |topic_name| && curf == |topic_filter|;
  }

  /** "a/#" covers "a" in section 4.7.1 but not here, and "a/+" covers "a/". */
  lemma ParentAndEmptyLevelRefused()
    ensures Matches(Levels("a/#"), Levels("a")) && !Accepts(Levels("a/#"), Levels("a"))
    ensures Matches(Levels("a/+"), Levels("a/")) && !Accepts(Levels("a/+"), Levels("a/"))
  {
    assert "a"[1..] == "" && "/"[1..] == "" && "#"[1..] == "" && "+"[1..] == "";
    assert "a/"[1..] == "/" && "/#"[1..] == "#" && "/+"[1..] == "+" && "a/#"[1..] == "/#" && "a/+"[1..] == "/+";
    assert Levels("") == [""];
    assert Levels("a") == ["a"] by { assert "a" == ['a'] + ""; }
    assert Levels("#") == ["#"] by { assert "#" == ['#'] + ""; }
    assert Levels("+") == ["+"] by { assert "+" == ['+'] + ""; }
    assert Levels("/") == ["", ""] && Levels("/#") == ["", "#"] && Levels("/+") == ["", "+"];
    assert Levels("a/") == ["a", ""] by { assert "a" == ['a'] + ""; }
    assert Levels("a/#") == ["a", "#"] by { assert "a" == ['a'] + ""; }
    assert Levels("a/+") == ["a", "+"] by { assert "a" == ['a'] + ""; }
    assert Accepts(Levels("a/#"), Levels("a")) == Accepts(["#"], []);
    assert Matches(Levels("a/#"), Levels("a")) == Matches(["#"], []);
    assert Accepts(Levels("a/+"), Levels("a/")) == Accepts(["+"], [""]);
    assert Matches(Levels("a/+"), Levels("a/")) == Matches(["+"], [""]) == Matches([], []);
  }
}
