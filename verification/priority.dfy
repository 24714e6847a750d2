/** Monster priority from a template's file name (`get_monster_priority`): a keyword classifier
    over the lower-cased name, with English and Chinese keywords per tier. */
module Priority {

  /** `str.lower()` on one character, for the ASCII letters. The keywords are ASCII lower-case
      letters or CJK characters, which have no case. */
  function LowerChar(c: char): char {
    if 'A' <= c <= 'Z' then (c as int + 32) as char else c
  }

  function Lower(s: string): (r: string)
    ensures |r| == |s|
    ensures forall i :: 0 <= i < |s| ==> r[i] == LowerChar(s[i])
  {
    seq(|s|, i requires 0 <= i < |s| => LowerChar(s[i]))
  }

  /** Python's `k in s` on strings: `k` occurs in `s` as a contiguous substring. */
  predicate Contains(s: string, k: string) {
    exists i :: 0 <= i <= |s| && OccursAt(s, k, i)
  }

  predicate OccursAt(s: string, k: string, i: int) {
    0 <= i <= |s| - |k| && s[i..i + |k|] == k
  }

  const BossPriority: int := 10
  const ElitePriority: int := 8
  const RarePriority: int := 6
  const NormalPriority: int := 5

  predicate IsBoss(name: string) {
    var n := Lower(name);
    Contains(n, "boss") || Contains(n, "王")
  }

  predicate IsElite(name: string) {
    var n := Lower(name);
    Contains(n, "elite") || Contains(n, "精英")
  }

  predicate IsRare(name: string) {
    var n := Lower(name);
    Contains(n, "rare") || Contains(n, "稀有")
  }

  /** The tier of the first keyword group that the lower-cased name contains, checked from the
      highest tier down; a name with no keyword gets the normal priority 5. */
  function MonsterPriority(name: string): (r: int)
    ensures r == BossPriority || r == ElitePriority || r == RarePriority || r == NormalPriority
    ensures r == BossPriority <==> IsBoss(name)
    ensures r == ElitePriority <==> !IsBoss(name) && IsElite(name)
    ensures r == RarePriority <==> !IsBoss(name) && !IsElite(name) && IsRare(name)
    ensures r == NormalPriority <==> !IsBoss(name) && !IsElite(name) && !IsRare(name)
  {
    if IsBoss(name) then BossPriority
    else if IsElite(name) then ElitePriority
    else if IsRare(name) then RarePriority
    else NormalPriority
  }

  lemma LowerConcat(a: string, b: string)
    ensures Lower(a + b) == Lower(a) + Lower(b)
  {
    var l := Lower(a + b);
    var r := Lower(a) + Lower(b);
    assert |l| == |r|;
    forall i | 0 <= i < |l|
      ensures l[i] == r[i]
    {
      if i < |a| {
        assert (a + b)[i] == a[i];
      } else {
        assert (a + b)[i] == b[i - |a|];
      }
    }
  }

  lemma ContainsInConcat(a: string, b: string, k: string)
    ensures Contains(a, k) ==> Contains(a + b, k)
    ensures Contains(b, k) ==> Contains(a + b, k)
  {
    if Contains(a, k) {
      var i :| OccursAt(a, k, i);
      assert OccursAt(a, k, i);
      assert (a + b)[i..i + |k|] == a[i..i + |k|];
      assert OccursAt(a + b, k, i);
    }
    if Contains(b, k) {
      var i :| OccursAt(b, k, i);
      assert OccursAt(b, k, i);
      var j := |a| + i;
      assert (a + b)[j..j + |k|] == b[i..i + |k|];
      assert OccursAt(a + b, k, j);
    }
  }

  lemma TiersInConcat(a: string, b: string)
    ensures IsBoss(a) || IsBoss(b) ==> IsBoss(a + b)
    ensures IsElite(a) || IsElite(b) ==> IsElite(a + b)
    ensures IsRare(a) || IsRare(b) ==> IsRare(a + b)
  {
    LowerConcat(a, b);
    var la, lb := Lower(a), Lower(b);
    ContainsInConcat(la, lb, "boss");
    ContainsInConcat(la, lb, "王");
    ContainsInConcat(la, lb, "elite");
    ContainsInConcat(la, lb, "精英");
    ContainsInConcat(la, lb, "rare");
    ContainsInConcat(la, lb, "稀有");
  }

  /** Adding text to a file name never lowers its priority: the highest-tier keyword anywhere in
      the name wins. */
  lemma PriorityMonotoneInName(a: string, b: string)
    ensures MonsterPriority(a + b) >= MonsterPriority(a)
    ensures MonsterPriority(a + b) >= MonsterPriority(b)
  {
    TiersInConcat(a, b);
  }

  /** The classification ignores ASCII case. */
  lemma PriorityIgnoresCase(a: string, b: string)
    requires Lower(a) == Lower(b)
    ensures MonsterPriority(a) == MonsterPriority(b)
  {
  }

  lemma BossKeywordWins()
    ensures MonsterPriority("templates/Elite_Rare_BOSS.png") == BossPriority
  {
    var n := "templates/Elite_Rare_BOSS.png";
    var l := Lower(n);
    assert l[21..25] == "boss";
    assert OccursAt(l, "boss", 21);
  }
}
