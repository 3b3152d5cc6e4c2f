/** Severity classification of a news title (app.py, get_risk).
    A title is lower-cased and scanned for two fixed trigger lists:
    any RED trigger wins; otherwise any AMBER trigger gives AMBER;
    otherwise the title is GREEN. */
module Risk {

  /** The three severity tiers. Being a datatype, every classification is
      exactly one of them. */
  datatype Tier = Red | Amber | Green

  /** Triggers that make a title RED (checked first). */
  const RedTriggers: seq<string> := ["사망", "유출", "해킹", "화재", "구속"]

  /** Triggers that make a title AMBER when no RED trigger is present. */
  const AmberTriggers: seq<string> := ["주의", "오류", "점검", "취약"]

  // ---------------------------------------------------------------------
  // Substring containment: the meaning of Python's `x in t` on strings.
  // ---------------------------------------------------------------------

  /** `x` occurs in `t` starting at offset `i`. */
  ghost predicate OccursAt(t: string, x: string, i: int)
  {
    0 <= i <= |t| - |x| && t[i..i + |x|] == x
  }

  /** `x` occurs in `t` at some offset. */
  ghost predicate Contains(t: string, x: string)
  {
    exists i :: OccursAt(t, x, i)
  }

  /** Executable substring search: is `x` a prefix of some suffix of `t`? */
  function Occurs(x: string, t: string): bool
    decreases |t|
  {
    if x <= t then true
    else if |t| == 0 then false
    else Occurs(x, t[1..])
  }

  /** An occurrence one position into `t` is an occurrence in `t[1..]`. */
  lemma OccursAtShift(t: string, x: string, i: int)
    requires |t| > 0 && i >= 0
    ensures OccursAt(t, x, i + 1) <==> OccursAt(t[1..], x, i)
  {
    if 0 <= i <= |t| - 1 - |x| {
      assert t[1..][i..i + |x|] == t[i + 1..i + 1 + |x|];
    }
  }

  /** Past a non-prefix head, `t` and `t[1..]` hold the same occurrences. */
  lemma ContainsTail(t: string, x: string)
    requires |t| > 0 && !(x <= t)
    ensures Contains(t, x) <==> Contains(t[1..], x)
  {
    if Contains(t[1..], x) {
      var i :| OccursAt(t[1..], x, i);
      OccursAtShift(t, x, i);
    }
    if Contains(t, x) {
      var i :| OccursAt(t, x, i);
      if i > 0 {
        OccursAtShift(t, x, i - 1);
      }
    }
  }

  /** The search finds `x` exactly when `x` occurs in `t`. */
  lemma {:induction false} OccursIff(x: string, t: string)
    ensures Occurs(x, t) <==> Contains(t, x)
    decreases |t|
  {
    if x <= t {
      assert OccursAt(t, x, 0);
    } else if |t| == 0 {
      assert forall i :: !OccursAt(t, x, i);
    } else {
      OccursIff(x, t[1..]);
      ContainsTail(t, x);
    }
  }

  /** Some trigger of `ts` occurs in `t`. */
  ghost predicate AnyContained(t: string, ts: seq<string>)
  {
    exists k :: 0 <= k < |ts| && Contains(t, ts[k])
  }

  /** Executable `any(x in t for x in ts)`. */
  function AnyOccurs(ts: seq<string>, t: string): (r: bool)
    ensures r <==> AnyContained(t, ts)
  {
    if ts == [] then false
    else
      OccursIff(ts[0], t);
      var rest := AnyOccurs(ts[1..], t);
      assert AnyContained(t, ts[1..]) ==> AnyContained(t, ts) by {
        if AnyContained(t, ts[1..]) {
          var k :| 0 <= k < |ts[1..]| && Contains(t, ts[1..][k]);
          assert ts[k + 1] == ts[1..][k];
        }
      }
      assert AnyContained(t, ts) && !Contains(t, ts[0]) ==> AnyContained(t, ts[1..]) by {
        if AnyContained(t, ts) && !Contains(t, ts[0]) {
          var k :| 0 <= k < |ts| && Contains(t, ts[k]);
          assert k != 0;
          assert ts[1..][k - 1] == ts[k];
        }
      }
      Occurs(ts[0], t) || rest
  }

  // ---------------------------------------------------------------------
  // Lower-casing (ASCII letters only; other characters are unchanged).
  // ---------------------------------------------------------------------

  function LowerChar(c: char): char
  {
    if 'A' <= c <= 'Z' then (c as int + 32) as char else c
  }

  /** `title.lower()`, restricted to ASCII letters. */
  function Lower(s: string): (r: string)
    ensures |r| == |s|
    ensures forall i :: 0 <= i < |s| ==> r[i] == LowerChar(s[i])
  {
    if s == [] then [] else [LowerChar(s[0])] + Lower(s[1..])
  }

  /** Lower-casing is character-wise, so it carries every occurrence along. */
  lemma LowerKeepsContains(t: string, x: string)
    requires Contains(t, x)
    ensures Contains(Lower(t), Lower(x))
  {
    var i :| OccursAt(t, x, i);
    assert Lower(t)[i..i + |x|] == Lower(x);
    assert OccursAt(Lower(t), Lower(x), i);
  }

  lemma LowerIdempotent(s: string)
    ensures Lower(Lower(s)) == Lower(s)
  {
    assert forall i :: 0 <= i < |s| ==> LowerChar(LowerChar(s[i])) == LowerChar(s[i]);
  }

  /** Every configured trigger is already lower case. */
  lemma TriggersAreLowerCase()
    ensures forall k :: 0 <= k < |RedTriggers| ==> Lower(RedTriggers[k]) == RedTriggers[k]
    ensures forall k :: 0 <= k < |AmberTriggers| ==> Lower(AmberTriggers[k]) == AmberTriggers[k]
  {
  }

  // ---------------------------------------------------------------------
  // The classifier.
  // ---------------------------------------------------------------------

  /** The lower-cased title holds a RED trigger. */
  ghost predicate HasRedTrigger(title: string)
  {
    AnyContained(Lower(title), RedTriggers)
  }

  /** The lower-cased title holds an AMBER trigger. */
  ghost predicate HasAmberTrigger(title: string)
  {
    AnyContained(Lower(title), AmberTriggers)
  }

  /** get_risk: first match wins, RED list first. */
  function Classify(title: string): Tier
  {
    var t := Lower(title);
    if AnyOccurs(RedTriggers, t) then Red
    else if AnyOccurs(AmberTriggers, t) then Amber
    else Green
  }

  /** What each tier means: RED exactly when a RED trigger occurs in the
      lower-cased title; AMBER exactly when none does and an AMBER trigger
      does; GREEN exactly when neither list has a trigger in it. */
  lemma ClassifyMeaning(title: string)
    ensures Classify(title) == Red <==> HasRedTrigger(title)
    ensures Classify(title) == Amber <==> !HasRedTrigger(title) && HasAmberTrigger(title)
    ensures Classify(title) == Green <==> !HasRedTrigger(title) && !HasAmberTrigger(title)
  {
  }

  /** A RED trigger anywhere in the title (in any case) makes it RED,
      whatever AMBER triggers it also holds. */
  lemma RedDominates(title: string, k: nat)
    requires k < |RedTriggers| && Contains(title, RedTriggers[k])
    ensures Classify(title) == Red
  {
    LowerKeepsContains(title, RedTriggers[k]);
    TriggersAreLowerCase();
    ClassifyMeaning(title);
  }

  /** An AMBER trigger in a title with no RED trigger makes it AMBER. */
  lemma AmberWithoutRed(title: string, k: nat)
    requires k < |AmberTriggers| && Contains(title, AmberTriggers[k])
    requires !HasRedTrigger(title)
    ensures Classify(title) == Amber
  {
    LowerKeepsContains(title, AmberTriggers[k]);
    TriggersAreLowerCase();
    ClassifyMeaning(title);
  }

  /** The classification does not depend on the case of ASCII letters. */
  lemma ClassifyIgnoresCase(title: string)
    ensures Classify(Lower(title)) == Classify(title)
  {
    LowerIdempotent(title);
  }

  /** Example: a title holding a RED and no AMBER trigger. */
  lemma ExampleRed(title: string)
    requires title == "해킹 공격으로 개인정보 유출"
    ensures Classify(title) == Red
  {
    assert OccursAt(title, RedTriggers[2], 0);
    RedDominates(title, 2);
  }

  /** No RED trigger has its first character in `t`. */
  lemma NoRedInitial(t: string)
    requires forall i :: 0 <= i < |t| ==> t[i] !in {'사', '유', '해', '화', '구'}
    ensures !AnyContained(t, RedTriggers)
  {
    forall k | 0 <= k < |RedTriggers| ensures !Contains(t, RedTriggers[k]) {
      FirstCharAbsent(t, RedTriggers[k]);
    }
  }

  /** No AMBER trigger has its first character in `t`. */
  lemma NoAmberInitial(t: string)
    requires forall i :: 0 <= i < |t| ==> t[i] !in {'주', '오', '점', '취'}
    ensures !AnyContained(t, AmberTriggers)
  {
    forall k | 0 <= k < |AmberTriggers| ensures !Contains(t, AmberTriggers[k]) {
      FirstCharAbsent(t, AmberTriggers[k]);
    }
  }

  /** Example: a title holding an AMBER trigger only. */
  lemma ExampleAmber(title: string)
    requires title == "시스템 점검 안내"
    ensures Classify(title) == Amber
  {
    assert OccursAt(title, AmberTriggers[2], 4);
    LowerFixesUncased(title);
    NoRedInitial(title);
    AmberWithoutRed(title, 2);
  }

  /** A title with no ASCII capital and no character that starts a trigger
      holds no trigger, so it is GREEN. */
  lemma NoTriggerInitialIsGreen(title: string)
    requires forall i :: 0 <= i < |title| ==> !('A' <= title[i] <= 'Z')
    requires forall i :: 0 <= i < |title| ==>
               title[i] !in {'사', '유', '해', '화', '구', '주', '오', '점', '취'}
    ensures Classify(title) == Green
  {
    LowerFixesUncased(title);
    NoRedInitial(title);
    NoAmberInitial(title);
    ClassifyMeaning(title);
  }

  /** Example: a title holding no trigger. */
  lemma ExampleGreen(title: string)
    requires title == "신규 서비스 출시"
    ensures Classify(title) == Green
  {
    NoTriggerInitialIsGreen(title);
  }

  /** A string whose first character is absent from `t` does not occur in it. */
  lemma FirstCharAbsent(t: string, x: string)
    requires x != [] && x[0] !in t
    ensures !Contains(t, x)
  {
  }

  /** A string without ASCII capitals is its own lower-case form. */
  lemma LowerFixesUncased(s: string)
    requires forall i :: 0 <= i < |s| ==> !('A' <= s[i] <= 'Z')
    ensures Lower(s) == s
  {
  }
}
