/** Which block groups hold a copy of the superblock. */
module Ext4Backups {
  import opened Wrappers
  import opened Bytes

  function Pow(b: nat, k: nat): nat {
    if k == 0 then 1 else b * Pow(b, k - 1)
  }

  ghost predicate IsPower(b: nat, g: nat) {
    exists k: nat :: k >= 1 && Pow(b, k) == g
  }

  /** Groups 0 and 1 and the powers of 3, 5 and 7. */
  ghost predicate IsBackup(g: nat) {
    g <= 1 || IsPower(3, g) || IsPower(5, g) || IsPower(7, g)
  }

  lemma {:induction false} PowPositive(b: nat, k: nat)
    requires b >= 1
    ensures Pow(b, k) >= 1
  {
    if k > 0 {
      PowPositive(b, k - 1);
    }
  }

  lemma AtLeast(b: nat, x: nat)
    requires b >= 1
    ensures b * x >= x && (b >= 2 && x >= 1 ==> b * x > x)
  {
  }

  lemma {:induction false} PowGrows(b: nat, j: nat, k: nat)
    requires b >= 2 && j <= k
    ensures Pow(b, j) <= Pow(b, k) && (j < k ==> Pow(b, j) < Pow(b, k))
    decreases k
  {
    if j < k {
      PowGrows(b, j, k - 1);
      PowPositive(b, k - 1);
      AtLeast(b, Pow(b, k - 1));
    }
  }

  /** The powers around 32 bits. */
  lemma BigPowers()
    ensures Pow(5, 13) == 1220703125 && Pow(5, 14) == 6103515625
    ensures Pow(7, 10) == 282475249 && Pow(7, 11) == 1977326743
    ensures Pow(3, 19) == 1162261467 && Pow(3, 20) == 3486784401
  {
    assert Pow(5, 4) == 625;
    assert Pow(5, 8) == 390625;
    assert Pow(5, 12) == 244140625;
    assert Pow(7, 4) == 2401;
    assert Pow(7, 8) == 5764801;
    assert Pow(3, 5) == 243;
    assert Pow(3, 10) == 59049;
    assert Pow(3, 15) == 14348907;
    assert Pow(3, 18) == 387420489;
  }

  /** A number strictly between two powers is none. */
  lemma BetweenPowers(b: nat, k: nat, g: nat)
    requires b >= 2 && Pow(b, k) < g < Pow(b, k + 1)
    ensures !IsPower(b, g)
  {
    forall j: nat | j >= 1 ensures Pow(b, j) != g {
      if j <= k { PowGrows(b, j, k); } else { PowGrows(b, k + 1, j); }
    }
  }

  /** The next power still fits 32 bits, but for 5^14, which leaves 1808548329. */
  lemma NextPower(b: nat, k: nat, g: nat)
    requires b == 3 || b == 5 || b == 7
    requires Pow(b, k) < g <= 1808548329
    ensures Pow(b, k) * b % TWO32 == if b == 5 && k == 13 then 1808548329 else Pow(b, k + 1)
    ensures k <= 19 && (b == 5 ==> k <= 13)
  {
    BigPowers();
    PowStep(b, k);
    if b == 3 {
      if k >= 20 { PowGrows(3, 20, k); }
      PowGrows(3, k + 1, if k < 20 then 20 else k + 1);
    } else if b == 5 {
      if k >= 14 { PowGrows(5, 14, k); }
      if k < 13 { PowGrows(5, k + 1, 13); }
    } else {
      if k >= 11 { PowGrows(7, 11, k); }
      if k < 11 { PowGrows(7, k + 1, 11); }
    }
  }

  lemma PowStep(b: nat, k: nat)
    ensures Pow(b, k + 1) == Pow(b, k) * b && TWO32 > 0
  {
  }

  lemma PowerFound(b: nat, k: nat, g: nat)
    requires b >= 2 && k >= 1 && g >= 2 && Pow(b, k) >= g && (k > 1 ==> Pow(b, k - 1) < g)
    ensures Pow(b, k) == g <==> IsPower(b, g)
  {
    if Pow(b, k) > g {
      assert Pow(b, 0) == 1;
      BetweenPowers(b, k - 1, g);
    }
  }

  /** Climbing from x by factors of b, in 32-bit arithmetic, until g is reached: whether it was hit. */
  function ClimbFor(b: nat, x: nat, g: nat, rounds: nat): Option<bool>
    decreases rounds
  {
    if x >= g then Some(x == g) else if rounds == 0 then None else ClimbFor(b, x * b % TWO32, g, rounds - 1)
  }

  /** The test over all three bases, as the code makes it, with a bound on its rounds. */
  function Backup(g: nat, rounds: nat): Option<bool> {
    if g <= 1 then Some(true)
    else
      var three, five, seven := ClimbFor(3, 3, g, rounds), ClimbFor(5, 5, g, rounds), ClimbFor(7, 7, g, rounds);
      if three != Some(false) then three else if five != Some(false) then five else seven
  }

  /** A climb hits the powers of its base, and base 5 hits the remainder of 5^14 besides. */
  lemma {:induction false} ClimbHits(b: nat, k: nat, g: nat, rounds: nat)
    requires b == 3 || b == 5 || b == 7
    requires 2 <= g <= 1808548329 && k >= 1 && (k > 1 ==> Pow(b, k - 1) < g) && k + rounds >= 21 && (b == 5 ==> k <= 13)
    ensures ClimbFor(b, Pow(b, k), g, rounds) == Some(IsPower(b, g) || (b == 5 && g == 1808548329))
    decreases rounds
  {
    hide Pow, IsPower, ClimbFor;
    var x := Pow(b, k);
    if x < g {
      NextPower(b, k, g);
      ClimbStep(b, x, g, rounds);
      if b == 5 && k == 13 {
        AtRemainder(g, rounds);
      } else {
        ClimbHits(b, k + 1, g, rounds - 1);
      }
    } else {
      ClimbStops(b, x, g, rounds);
      PowerFound(b, k, g);
      BigPowers();
      if b == 5 { PowGrows(5, k, 13); }
    }
  }

  lemma ClimbStep(b: nat, x: nat, g: nat, rounds: nat)
    requires x < g && rounds >= 1
    ensures TWO32 > 0 && ClimbFor(b, x, g, rounds) == ClimbFor(b, x * b % TWO32, g, rounds - 1)
  {
  }

  lemma ClimbStops(b: nat, x: nat, g: nat, rounds: nat)
    requires x >= g
    ensures ClimbFor(b, x, g, rounds) == Some(x == g)
  {
  }

  /** Past 5^13 the climb lands on 5^14 mod 2^32. */
  lemma AtRemainder(g: nat, rounds: nat)
    requires 1220703125 < g <= 1808548329 && rounds >= 1
    ensures ClimbFor(5, 1808548329, g, rounds - 1) == Some(g == 1808548329) && !IsPower(5, g)
  {
    BigPowers();
    BetweenPowers(5, 13, g);
  }

  /** The test is right for every group number below 1808548329, and wrong there. */
  lemma BackupExact(g: nat)
    requires g <= 1808548329
    ensures Backup(g, 32) == Some(IsBackup(g) || g == 1808548329)
    ensures Backup(g, 32) == Some(IsBackup(g)) <==> g != 1808548329
  {
    hide IsPower, ClimbFor;
    if g >= 2 {
      FirstPower();
      ClimbHits(3, 1, g, 32);
      ClimbHits(5, 1, g, 32);
      ClimbHits(7, 1, g, 32);
      RemainderIsNone();
    }
  }

  lemma FirstPower()
    ensures Pow(3, 1) == 3 && Pow(5, 1) == 5 && Pow(7, 1) == 7
  {
    assert Pow(3, 0) == Pow(5, 0) == Pow(7, 0) == 1;
  }

  lemma RemainderIsNone()
    ensures !IsPower(3, 1808548329) && !IsPower(5, 1808548329) && !IsPower(7, 1808548329)
  {
    BigPowers();
    BetweenPowers(3, 19, 1808548329);
    BetweenPowers(5, 13, 1808548329);
    BetweenPowers(7, 10, 1808548329);
  }

  /** The first wrong answer: 5^14 mod 2^32 is no power of 3, 5 or 7, but taken for one. */
  lemma WrapMisleads()
    ensures Backup(1808548329, 32) == Some(true) && !IsBackup(1808548329)
  {
    BackupExact(1808548329);
    RemainderIsNone();
  }

  method Climb(b: nat, g: nat, ghost rounds: nat) returns (r: bool)
    requires ClimbFor(b, b, g, rounds).Some?
    ensures ClimbFor(b, b, g, rounds) == Some(r)
  {
    var x: nat := b;
    ghost var left := rounds;
    while x < g
      invariant ClimbFor(b, b, g, rounds) == ClimbFor(b, x, g, left)
      decreases left
    {
      left := left - 1;
      x := x * b % TWO32;
    }
    return x == g;
  }

  /** Groups 0, 1, and those found by climbing the powers of 3, 5 and 7: the backup groups for every group number below
      1808548329, more groups than group descriptors fit in a group. */
  method HasSuperBackup(g: nat) returns (r: bool)
    requires g <= 1808548329
    ensures Backup(g, 32) == Some(r)
    ensures (r <==> IsBackup(g)) <==> g != 1808548329
  {
    BackupExact(g);
    if g <= 1 {
      return true;
    }
    hide ClimbFor, IsBackup;
    var bases := [3, 5, 7];
    ghost var three, five, seven := ClimbFor(3, 3, g, 32), ClimbFor(5, 5, g, 32), ClimbFor(7, 7, g, 32);
    for i := 0 to 3
      invariant i >= 1 ==> three == Some(false)
      invariant i >= 2 ==> five == Some(false)
      invariant i >= 3 ==> seven == Some(false)
    {
      var found := Climb(bases[i], g, 32);
      if found {
        return true;
      }
    }
    return false;
  }
}
