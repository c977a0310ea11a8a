/** Topic filters (section 4.7 of MQTT 3.1.1): the greedy character loop and the level-by-level
    matchings it is compared with. */
module TopicMatcher {
  import opened Prelude

  const SLASH: byte := 47
  const PLUS: byte := 43
  const HASH: byte := 35

  // ---------- Levels ----------

  /** Index of the first separator, or the length when there is none. */
  function FirstSlash(s: seq<byte>): (i: nat)
    ensures i <= |s|
    ensures i < |s| ==> s[i] == SLASH
    ensures forall j | 0 <= j < i :: s[j] != SLASH
  {
    if |s| == 0 || s[0] == SLASH then 0 else 1 + FirstSlash(s[1..])
  }

  /** The levels of a topic: the pieces between separators. There is always at least one. */
  function Levels(s: seq<byte>): (r: seq<seq<byte>>)
    ensures |r| >= 1
    ensures r[0] == s[..FirstSlash(s)]
    decreases |s|
  {
    var i := FirstSlash(s);
    if i == |s| then [s] else [s[..i]] + Levels(s[i + 1..])
  }

  predicate Plain(level: seq<byte>) {
    PLUS !in level && HASH !in level
  }

  /** Section 4.7.1: a wildcard stands alone in its level, and `#` only in the last one. */
  predicate WellFormedLevels(fl: seq<seq<byte>>) {
    |fl| > 0 ==>
      && (Plain(fl[0]) || fl[0] == [PLUS] || (fl[0] == [HASH] && |fl| == 1))
      && WellFormedLevels(fl[1..])
  }

  predicate WellFormedFilter(filter: seq<byte>) {
    WellFormedLevels(Levels(filter))
  }

  // ---------- Two meanings of a filter ----------

  /** What this client implements: `+` takes one non-empty level, `#` takes all remaining levels,
      of which there is at least one and the first is not empty. */
  predicate MatchLevels(fl: seq<seq<byte>>, nl: seq<seq<byte>>) {
    if |fl| == 0 then |nl| == 0
    else if |nl| == 0 then false
    else if fl[0] == [HASH] then nl[0] != []
    else (if fl[0] == [PLUS] then nl[0] != [] else fl[0] == nl[0]) && MatchLevels(fl[1..], nl[1..])
  }

  /** Section 4.7.1: `+` takes exactly one level, which may be empty; `#` takes any number of
      levels, including none. */
  predicate StandardMatch(fl: seq<seq<byte>>, nl: seq<seq<byte>>) {
    if |fl| == 0 then |nl| == 0
    else if fl[0] == [HASH] then true
    else if |nl| == 0 then false
    else (fl[0] == [PLUS] || fl[0] == nl[0]) && StandardMatch(fl[1..], nl[1..])
  }

  /** Every wildcard of the filter stands where the topic has a level with text in it. */
  predicate WildcardsMeetText(fl: seq<seq<byte>>, nl: seq<seq<byte>>) {
    forall i | 0 <= i < |fl| && (fl[i] == [PLUS] || fl[i] == [HASH]) :: i < |nl| && nl[i] != []
  }

  /** The client's matching is sound for the standard, and misses a standard match exactly when a
      wildcard faces an empty or absent level. */
  lemma {:induction false} ClientMatchVersusStandard(fl: seq<seq<byte>>, nl: seq<seq<byte>>)
    requires WellFormedLevels(fl)
    ensures MatchLevels(fl, nl) <==> StandardMatch(fl, nl) && WildcardsMeetText(fl, nl)
    decreases |fl|
  {
    if |fl| > 0 {
      if |nl| > 0 {
        ClientMatchVersusStandard(fl[1..], nl[1..]);
        assert WildcardsMeetText(fl, nl) <==>
               (fl[0] == [PLUS] || fl[0] == [HASH] ==> nl[0] != []) && WildcardsMeetText(fl[1..], nl[1..]) by {
          if WildcardsMeetText(fl, nl) {
            forall i | 0 <= i < |fl[1..]| && (fl[1..][i] == [PLUS] || fl[1..][i] == [HASH])
              ensures i < |nl[1..]| && nl[1..][i] != []
            {
              assert fl[i + 1] == fl[1..][i];
            }
          }
          if (fl[0] == [PLUS] || fl[0] == [HASH] ==> nl[0] != []) && WildcardsMeetText(fl[1..], nl[1..]) {
            forall i | 0 <= i < |fl| && (fl[i] == [PLUS] || fl[i] == [HASH])
              ensures i < |nl| && nl[i] != []
            {
              if i > 0 {
                assert fl[i] == fl[1..][i - 1];
              }
            }
          }
        }
      }
    }
  }

  /** On topics without empty levels, a `#` that covers at least one level is all that is needed. */
  lemma CompleteOnNonEmptyLevels(fl: seq<seq<byte>>, nl: seq<seq<byte>>)
    requires WellFormedLevels(fl) && StandardMatch(fl, nl)
    requires forall i | 0 <= i < |nl| :: nl[i] != []
    requires |nl| >= |fl|
    ensures MatchLevels(fl, nl)
  {
    ClientMatchVersusStandard(fl, nl);
  }

  /** `a/#` covers `a` in the standard (section 4.7.1.2) but not in this client. */
  lemma ParentLevelIsMissed()
    ensures var filter, name := [97, SLASH, HASH], [97];
            && WellFormedFilter(filter)
            && StandardMatch(Levels(filter), Levels(name))
            && !MatchLevels(Levels(filter), Levels(name))
  {
    var filter: seq<byte>, name: seq<byte> := [97, SLASH, HASH], [97];
    assert filter[1..] == [SLASH, HASH] && FirstSlash(filter) == 1;
    assert filter[2..] == [HASH] && FirstSlash([HASH]) == 1;
    assert Levels(filter[2..]) == [[HASH]];
    assert filter[..1] == [97];
    assert Levels(filter) == [[97], [HASH]];
    assert FirstSlash(name) == 1 && Levels(name) == [[97]];
    var fl: seq<seq<byte>> := Levels(filter);
    var last: seq<seq<byte>> := fl[1..];
    assert last == [[HASH]];
    assert WellFormedLevels(last[1..]);
    assert WellFormedLevels(last);
    assert StandardMatch(last, []);
  }

  // ---------- The greedy loop ----------

  /** Where the loop for `+` stops: at the last character of the level that begins at `n`. */
  method SkipLevel(name: seq<byte>, n: nat) returns (last: nat)
    requires n < |name| && name[n] != SLASH
    ensures n <= last < |name|
    ensures last + 1 == n + FirstSlash(name[n..])
  {
    last := n;
    var next := last + 1;
    StepInLevel(name, n);
    while next < |name| && name[next] != SLASH
      invariant n <= last < |name| && next == last + 1
      invariant n + FirstSlash(name[n..]) == next + FirstSlash(name[next..])
    {
      StepInLevel(name, next);
      last := last + 1;
      next := last + 1;
    }
  }

  lemma StepInLevel(s: seq<byte>, i: nat)
    requires i < |s| && s[i] != SLASH
    ensures FirstSlash(s[i..]) == 1 + FirstSlash(s[i + 1..])
  {
    assert s[i..][1..] == s[i + 1..];
  }

  /** The loop as a recursion on what is left of the filter and of the name. */
  predicate Greedy(filter: seq<byte>, name: seq<byte>)
    decreases |filter|
  {
    if |filter| == 0 || |name| == 0 then |filter| == 0 && |name| == 0
    else if Differs(filter[0], name[0]) then false
    else if filter[0] == PLUS then Greedy(filter[1..], name[FirstSlash(name)..])
    else if filter[0] == HASH then |filter| == 1
    else Greedy(filter[1..], name[1..])
  }

  /** The two tests that leave the loop. */
  predicate Differs(f: byte, n: byte) {
    (n == SLASH && f != SLASH) || (f != PLUS && f != HASH && f != n)
  }

  /** Dropping the first character: a separator ends an empty level, any other character shortens
      the first level and keeps the others. */
  lemma DropFirst(s: seq<byte>)
    requires |s| > 0
    ensures s[0] != SLASH ==> Levels(s)[0] == [s[0]] + Levels(s[1..])[0] && Levels(s)[1..] == Levels(s[1..])[1..]
    ensures s[0] == SLASH ==> Levels(s) == [[]] + Levels(s[1..])
  {
    if s[0] != SLASH {
      DropLetter(s);
    } else {
      assert s[..0] == [];
    }
  }

  lemma DropLetter(s: seq<byte>)
    requires |s| > 0 && s[0] != SLASH
    ensures Levels(s)[0] == [s[0]] + Levels(s[1..])[0] && Levels(s)[1..] == Levels(s[1..])[1..]
  {
    hide Levels, FirstSlash;
    var tail := s[1..];
    FirstSlashStep(s);
    LevelsOnce(s);
    LevelsOnce(tail);
    var i := FirstSlash(tail);
    assert s[..i + 1] == [s[0]] + tail[..i];
    if i < |tail| {
      assert tail[i + 1..] == s[i + 2..];
    } else {
      assert s == [s[0]] + tail;
    }
  }

  lemma FirstSlashStep(s: seq<byte>)
    requires |s| > 0 && s[0] != SLASH
    ensures FirstSlash(s) == FirstSlash(s[1..]) + 1
  {
  }

  lemma LevelsOnce(s: seq<byte>)
    ensures FirstSlash(s) == |s| ==> Levels(s) == [s]
    ensures FirstSlash(s) < |s| ==> Levels(s) == [s[..FirstSlash(s)]] + Levels(s[FirstSlash(s) + 1..])
  {
  }

  lemma EmptyLevels()
    ensures Levels([]) == [[]] && WellFormedFilter([])
  {
    assert Levels([])[1..] == [];
  }

  /** Equal characters, no wildcard: both sides advance by one. */
  lemma AdvanceLiteral(filter: seq<byte>, name: seq<byte>)
    requires |filter| > 0 && |name| > 0 && filter[0] == name[0]
    requires filter[0] != PLUS && filter[0] != HASH
    requires WellFormedFilter(filter)
    ensures WellFormedFilter(filter[1..])
    ensures MatchLevels(Levels(filter), Levels(name)) == MatchLevels(Levels(filter[1..]), Levels(name[1..]))
  {
    DropFirst(filter);
    DropFirst(name);
    var fl, nl := Levels(filter), Levels(name);
    var fl', nl' := Levels(filter[1..]), Levels(name[1..]);
    if filter[0] == SLASH {
      assert fl[0] == [] && fl[1..] == fl' && nl[1..] == nl';
    } else {
      assert fl[0][0] == filter[0] && Plain(fl[0]);
      assert fl'[0] == fl[0][1..] && nl'[0] == nl[0][1..];
      assert fl == [fl[0]] + fl'[1..];
      assert fl[0] == nl[0] <==> fl'[0] == nl'[0];
      assert HASH !in fl'[0] && PLUS !in fl'[0];
    }
  }

  /** `+` against a non-empty level: the whole level is consumed. */
  lemma AdvancePlus(filter: seq<byte>, name: seq<byte>)
    requires |filter| > 0 && |name| > 0 && filter[0] == PLUS && name[0] != SLASH
    requires WellFormedFilter(filter)
    ensures WellFormedFilter(filter[1..])
    ensures MatchLevels(Levels(filter), Levels(name))
         == MatchLevels(Levels(filter[1..]), Levels(name[FirstSlash(name)..]))
  {
    hide Levels, FirstSlash;
    DropFirst(filter);
    var fl := Levels(filter);
    assert fl[0][0] == PLUS;
    assert fl[0] == [PLUS];
    var fl' := Levels(filter[1..]);
    assert fl'[0] == [] && fl[1..] == fl'[1..];
    var i := FirstSlash(name);
    var nl, nl' := Levels(name), Levels(name[i..]);
    LevelsOnce(name);
    if i == |name| {
      EmptyLevels();
      assert name[i..] == [] && nl[1..] == [] == nl'[1..];
    } else {
      DropFirst(name[i..]);
      assert name[i..][1..] == name[i + 1..];
      assert nl'[1..] == Levels(name[i + 1..]) == nl[1..];
    }
    assert nl'[0] == [];
  }

  /** `#` against a non-empty level is the end of the filter and a match. */
  lemma AdvanceHash(filter: seq<byte>, name: seq<byte>)
    requires |filter| > 0 && |name| > 0 && filter[0] == HASH && name[0] != SLASH
    requires WellFormedFilter(filter)
    ensures filter == [HASH] && MatchLevels(Levels(filter), Levels(name))
  {
    var fl := Levels(filter);
    assert fl[0][0] == HASH;
    assert fl[0] == [HASH] && |fl| == 1;
    DropFirst(name);
  }

  /** The two tests that leave the loop are final. */
  lemma Mismatch(filter: seq<byte>, name: seq<byte>)
    requires |filter| > 0 && |name| > 0 && WellFormedFilter(filter)
    requires Differs(filter[0], name[0])
    ensures !MatchLevels(Levels(filter), Levels(name))
  {
    DropFirst(filter);
    DropFirst(name);
    var fl, nl := Levels(filter), Levels(name);
    if name[0] == SLASH {
      assert nl[0] == [] && fl[0][0] == filter[0];
    } else if filter[0] == SLASH {
      assert fl[0] == [] && nl[0][0] == name[0];
    } else {
      assert fl[0][0] == filter[0] && nl[0][0] == name[0];
      assert fl[0] != nl[0];
    }
  }

  /** When one side is used up, the other must be too. */
  lemma OneSideEmpty(filter: seq<byte>, name: seq<byte>)
    requires WellFormedFilter(filter) && (|filter| == 0 || |name| == 0)
    ensures MatchLevels(Levels(filter), Levels(name)) <==> |filter| == 0 && |name| == 0
  {
    EmptyLevels();
    if |filter| > 0 {
      DropFirst(filter);
    }
    if |name| > 0 {
      DropFirst(name);
    }
    assert Levels([])[1..] == [];
  }

  /** For every well-formed filter and every name the loop gives the level-by-level answer. */
  lemma {:induction false} GreedyIsLevelByLevel(filter: seq<byte>, name: seq<byte>)
    requires WellFormedFilter(filter)
    ensures Greedy(filter, name) <==> MatchLevels(Levels(filter), Levels(name))
    decreases |filter|
  {
    if |filter| == 0 || |name| == 0 {
      OneSideEmpty(filter, name);
    } else if Differs(filter[0], name[0]) {
      Mismatch(filter, name);
    } else if filter[0] == PLUS {
      AdvancePlus(filter, name);
      GreedyIsLevelByLevel(filter[1..], name[FirstSlash(name)..]);
    } else if filter[0] == HASH {
      AdvanceHash(filter, name);
    } else {
      AdvanceLiteral(filter, name);
      GreedyIsLevelByLevel(filter[1..], name[1..]);
    }
  }

  /** `filter` is a C string without its final zero byte; the name comes with its length. */
  method IsTopicMatched(filter: seq<byte>, name: seq<byte>) returns (matched: bool)
    ensures matched <==> Greedy(filter, name)
    ensures WellFormedFilter(filter) ==> (matched <==> MatchLevels(Levels(filter), Levels(name)))
  {
    if WellFormedFilter(filter) {
      GreedyIsLevelByLevel(filter, name);
    }
    var f, n := 0, 0;
    assert filter[0..] == filter && name[0..] == name;
    while f < |filter| && n < |name|
      invariant 0 <= f <= |filter| && 0 <= n <= |name|
      invariant Greedy(filter, name) <==> Greedy(filter[f..], name[n..])
    {
      assert filter[f..][1..] == filter[f + 1..] && name[n..][1..] == name[n + 1..];
      if (name[n] == SLASH && filter[f] != SLASH)
      || (filter[f] != PLUS && filter[f] != HASH && filter[f] != name[n]) {
        return false;
      }
      if filter[f] == PLUS {
        ghost var start := n;
        n := SkipLevel(name, n);
        assert name[start..][FirstSlash(name[start..])..] == name[n + 1..];
      } else if filter[f] == HASH {
        n := |name| - 1;
      }
      f, n := f + 1, n + 1;
    }
    return n == |name| && f == |filter|;
  }
}
