/** Which names hashStr of cache.c tells apart: the password cache and the DNS
    table know a name by nothing else. */
module NameHash {
  import opened Bytes
  import opened Hash

  function Pow33(k: nat): nat { if k == 0 then 1 else 33 * Pow33(k - 1) }

  /** Each character times its power of 33, the first character highest. */
  function Weighted(s: seq<Byte>): nat {
    if s == [] then 0 else s[0] * Pow33(|s| - 1) + Weighted(s[1..])
  }

  lemma {:induction false} WeightedSnoc(s: seq<Byte>, c: Byte)
    ensures Weighted(s + [c]) == 33 * Weighted(s) + c
  {
    if s == [] {
      assert ([c])[1..] == [];
    } else {
      assert (s + [c])[1..] == s[1..] + [c];
      WeightedSnoc(s[1..], c);
      var p := Pow33(|s| - 1);
      assert s[0] * (33 * p) == 33 * (s[0] * p);
    }
  }

  /** The hash before wrapping, in closed form. */
  lemma {:induction false} Djb2Closed(s: seq<Byte>)
    ensures Djb2(s) == 5381 * Pow33(|s|) + Weighted(s)
  {
    if s != [] {
      var front := s[..|s| - 1];
      Djb2Closed(front);
      WeightedSnoc(front, s[|s| - 1]);
      assert s == front + [s[|s| - 1]];
    }
  }

  /** 33 is odd, so multiplying by it loses nothing modulo 2^64. */
  lemma Cancel33(x: nat, y: nat, c: nat)
    requires (33 * x + c) % M64 == (33 * y + c) % M64
    ensures x % M64 == y % M64
  {
    var inv, d := 0xf83e0f83e0f83e1, x - y;
    var turns := (33 * x + c) / M64 - (33 * y + c) / M64;
    assert 33 * d == turns * M64;
    assert 33 * inv == 2 * M64 + 1;
    calc {
      d;
      (33 * inv) * d - 2 * M64 * d;
      inv * (33 * d) - 2 * M64 * d;
      inv * (turns * M64) - 2 * M64 * d;
      M64 * (inv * turns - 2 * d);
    }
    SameMod(x, y, M64, inv * turns - 2 * d);
  }

  lemma StepTells(x: nat, y: nat, c: nat)
    ensures x % M64 == y % M64 <==> (33 * x + c) % M64 == (33 * y + c) % M64
  {
    if x % M64 == y % M64 {
      SameMod(33 * x + c, 33 * y + c, M64, 33 * (x / M64 - y / M64));
    } else if (33 * x + c) % M64 == (33 * y + c) % M64 {
      Cancel33(x, y, c);
    }
  }

  /** A common ending neither joins nor separates two names. */
  lemma {:induction false} EndingTellsNothing(s: seq<Byte>, t: seq<Byte>, u: seq<Byte>)
    ensures Djb2(s + u) % M64 == Djb2(t + u) % M64 <==> Djb2(s) % M64 == Djb2(t) % M64
  {
    if u == [] {
      assert s + u == s && t + u == t;
    } else {
      var front, c := u[..|u| - 1], u[|u| - 1];
      EndingTellsNothing(s, t, front);
      assert (s + u)[..|s + u| - 1] == s + front && (t + u)[..|t + u| - 1] == t + front;
      StepTells(Djb2(s + front), Djb2(t + front), c);
    }
  }

  lemma Djb2Snoc(s: seq<Byte>, c: Byte)
    ensures Djb2(s + [c]) == 33 * Djb2(s) + c
  {
    assert (s + [c])[..|s|] == s;
  }

  /** Two names that differ in exactly one character have different hashes. */
  lemma OneCharacterTells(s: seq<Byte>, t: seq<Byte>, i: nat)
    requires |s| == |t| && i < |s| && s[i] != t[i]
    requires forall j | 0 <= j < |s| && j != i :: s[j] == t[j]
    ensures Djb2(s) % M64 != Djb2(t) % M64
  {
    hide Djb2;
    var p, u := s[..i], s[i + 1..];
    assert s == (p + [s[i]]) + u && t == (p + [t[i]]) + u;
    EndingTellsNothing(p + [s[i]], p + [t[i]], u);
    Djb2Snoc(p, s[i]);
    Djb2Snoc(p, t[i]);
    LastTells(Djb2(p), s[i], t[i]);
  }

  lemma LastTells(h: nat, a: Byte, b: Byte)
    requires a != b
    ensures (33 * h + a) % M64 != (33 * h + b) % M64
  {
  }

  /** Two characters can make up for each other: "ab" and "bA" hash alike, with
      any common beginning and ending. */
  lemma TwoCharactersCollide(p: seq<Byte>, u: seq<Byte>)
    ensures Djb2(p + [97, 98] + u) % M64 == Djb2(p + [98, 65] + u) % M64
  {
    hide Djb2;
    Djb2Snoc(p, 97);
    Djb2Snoc(p + [97], 98);
    Djb2Snoc(p, 98);
    Djb2Snoc(p + [98], 65);
    assert p + [97, 98] == p + [97] + [98] && p + [98, 65] == p + [98] + [65];
    EndingTellsNothing(p + [97, 98], p + [98, 65], u);
  }
}
