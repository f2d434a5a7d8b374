/** How long a feature family becomes (embeddings.py, `normalize_feature_families`). */
module FamilyTargets {
  import opened Basics
  import opened Vectors
  import opened FeatureNorms

  ghost predicate Part(target: real, k: real, norm: real) {
    target == norm * k
  }

  /** A family within its target keeps its values; a longer one is scaled to exactly its target, by a factor between 0
      and 1. */
  lemma ScaleMeaning(c: Channels, d: Dict, family: Family, root: real -> real)
    requires IsRoot(root) && c.Valid()
    ensures var norm, k := FamilyNorm(c, d.order, d.values, family, root), ScaleOf(c, d, root)(family);
            && (norm <= c.target(family) ==> k == 1.0)
            && (norm > c.target(family) ==> 0.0 < k < 1.0 && Part(c.target(family), k, norm))
  {
    var norm := FamilyNorm(c, d.order, d.values, family, root);
    if norm > c.target(family) {
      assert norm >= 0.000000001;
      ShareOfLonger(c.target(family), norm, ScaleOf(c, d, root)(family));
    }
  }

  lemma ShareOfLonger(target: real, norm: real, k: real)
    requires 0.0 < target < norm && k == target / norm
    ensures Part(target, k, norm) && 0.0 < k < 1.0
  {
    FactorRange(target, k, norm);
  }

  lemma FactorRange(target: real, k: real, norm: real)
    requires Part(target, k, norm) && 0.0 < target < norm
    ensures 0.0 < k < 1.0
  {
    BelowNone(target, k, norm);
    AboveWhole(target, k, norm);
  }

  lemma BelowNone(target: real, k: real, norm: real)
    requires Part(target, k, norm) && norm > 0.0
    ensures k <= 0.0 ==> target <= 0.0
  {}

  lemma AboveWhole(target: real, k: real, norm: real)
    requires Part(target, k, norm) && norm > 0.0
    ensures k >= 1.0 ==> target >= norm
  {
    if k >= 1.0 {
      MulMonotone(1.0, k, norm);
    }
  }

  /** So before rounding an overlong family ends up exactly as long as its target. */
  lemma LongFamilyReachesTarget(c: Channels, d: Dict, family: Family, root: real -> real)
    requires IsRoot(root) && c.Valid()
    requires FamilyNorm(c, d.order, d.values, family, root) > c.target(family)
    ensures var s := Scaled(FamilyValues(c, d.order, d.values, family), ScaleOf(c, d, root)(family));
            Dot(s, s) == c.target(family) * c.target(family)
  {
    LongReaches(FamilyValues(c, d.order, d.values, family), c.target(family), root);
  }

  lemma LongReaches(v: Vec, target: real, root: real -> real)
    requires IsRoot(root) && root(Dot(v, v)) > target >= 0.000000001
    ensures var k := Scale(root(Dot(v, v)), target); Dot(Scaled(v, k), Scaled(v, k)) == target * target
  {
    var k := Scale(root(Dot(v, v)), target);
    ShareOfLonger(target, root(Dot(v, v)), k);
    Reaches(v, k, target, root);
  }

  lemma Reaches(v: Vec, k: real, target: real, root: real -> real)
    requires IsRoot(root) && Part(target, k, root(Dot(v, v)))
    ensures Dot(Scaled(v, k), Scaled(v, k)) == target * target
  {
    DotNonNegative(v);
    ScaledSquare(v, k);
    SquareOfShare(root(Dot(v, v)), k, Dot(v, v), target);
  }

  lemma SquareOfShare(norm: real, k: real, square: real, target: real)
    requires norm * norm == square && Part(target, k, norm)
    ensures k * k * square == target * target
  {
    assert k * k * (norm * norm) == (norm * k) * (norm * k);
  }

  /** `kept` is the value under the factor, to four decimals. */
  ghost predicate KeptAt(kept: real, value: real, k: real) {
    Abs(kept - value * k) <= 0.00005
  }

  /** What is kept of a feature of an overlong family is its value under the factor that brings the family to its
      target, to four decimals. */
  lemma LongFamilyScaled(c: Channels, d: Dict, key: Key, root: real -> real, k: real)
    requires IsRoot(root) && c.Valid() && key in Normalized(c, d, root) && key in d.values
    requires FamilyNorm(c, d.order, d.values, c.family(key), root) > c.target(c.family(key))
    requires Part(c.target(c.family(key)), k, FamilyNorm(c, d.order, d.values, c.family(key), root))
    ensures KeptAt(Normalized(c, d, root)[key], d.values[key], k)
  {
    var norm := FamilyNorm(c, d.order, d.values, c.family(key), root);
    ScaleMeaning(c, d, c.family(key), root);
    OneFactor(c.target(c.family(key)), k, ScaleOf(c, d, root)(c.family(key)), norm);
    KeptIsRounded(c, d, key, root);
    RoundedAt(d.values[key], k, Normalized(c, d, root)[key]);
  }

  lemma OneFactor(target: real, k: real, l: real, norm: real)
    requires Part(target, k, norm) && Part(target, l, norm) && norm > 0.0
    ensures k == l
  {}

  ghost predicate Rounded(kept: real, value: real, k: real) {
    kept == Round4(value * k)
  }

  lemma RoundedAt(value: real, k: real, kept: real)
    requires Rounded(kept, value, k)
    ensures KeptAt(kept, value, k)
  {
    RoundClose(value * k);
  }

  lemma KeptIsRounded(c: Channels, d: Dict, key: Key, root: real -> real)
    requires c.Valid() && key in d.values && key in Normalized(c, d, root)
    ensures Rounded(Normalized(c, d, root)[key], d.values[key], ScaleOf(c, d, root)(c.family(key)))
  {
    KeptOf(c, d.values, key, ScaleOf(c, d, root));
  }

  lemma KeptOf(c: Channels, values: map<Key, real>, key: Key, scale: Family -> real)
    requires c.Valid() && key in values && key in Kept(c, values, scale)
    ensures Rounded(Kept(c, values, scale)[key], values[key], scale(c.family(key)))
  {
    assert c.keep(values[key], scale(c.family(key))) == KeepRounded(values[key], scale(c.family(key)));
  }

  /** Cast and genre may weigh most, runtime and medium least; a key outside the table has the target of the rest. */
  lemma TargetsMeaning(f: Family)
    ensures 1.0 <= TargetOf(f) <= 2.8
    ensures TargetOf(f) == 2.8 <==> f.prefix in {"person:cast:", "genre:"}
    ensures TargetOf(f) == 2.5 <==> f.prefix in {"person:director:", "kw:"}
    ensures TargetOf(f) == 1.8 <==> f.prefix == "person:writer:"
    ensures TargetOf(f) == 1.5 <==> f.prefix in {"country:", "lang:", "decade:"}
    ensures TargetOf(f) == 1.0 <==> f.prefix in {"runtime:", "media:"}
    ensures f.prefix in {"tone:", "other:"} ==> TargetOf(f) == 2.0
  {}

  const LISTED := {"person:director:", "person:writer:", "person:cast:", "tone:", "kw:", "country:", "lang:", "genre:",
                   "decade:", "runtime:", "media:"}

  /** No prefix of the table begins with another one. */
  lemma PrefixesApart(p: string, q: string, key: string)
    requires p in LISTED && q in LISTED && p <= key && q <= key
    ensures p == q
  {
    assert key[..|p|] == p && key[..|q|] == q;
    assert |p| > 0 && |q| > 0 && key[0] == p[0] == q[0];
    if key[0] == 'p' {
      assert |p| > 7 && |q| > 7 && key[7] == p[7] == q[7];
    }
  }

  lemma ListedAreThePrefixes(p: string)
    ensures p in LISTED <==> p in PREFIXES
  {
    assert PREFIXES == ["person:director:", "person:writer:", "person:cast:", "tone:", "kw:", "country:", "lang:",
                        "genre:", "decade:", "runtime:", "media:"];
  }

  /** A key that begins with a prefix of the table falls into its family, every other key into the rest. */
  lemma FamilyOfKey(key: Key, p: string)
    requires p in LISTED
    ensures p <= key.text <==> CatalogChannels().family(key) == Family(p)
    ensures (forall q | q in LISTED :: !(q <= key.text)) ==> CatalogChannels().family(key) == Family("other:")
  {
    if p <= key.text {
      ListedIsLongest(key.text, p);
    }
    LongestIsListed(key.text);
    ListedAreThePrefixes(p);
  }

  lemma ListedIsLongest(key: string, p: string)
    requires p in LISTED && p <= key
    ensures LongestPrefix(key, PREFIXES) == p
  {
    var best := LongestPrefix(key, PREFIXES);
    ListedAreThePrefixes(p);
    ListedAreThePrefixes(best);
    var i :| 0 <= i < |PREFIXES| && PREFIXES[i] == p;
    assert |p| <= |best|;
    PrefixesApart(p, best, key);
  }

  lemma LongestIsListed(key: string)
    ensures var best := LongestPrefix(key, PREFIXES); best == "" || (best in LISTED && best <= key)
    ensures "" !in LISTED && "other:" !in LISTED
  {
    ListedAreThePrefixes(LongestPrefix(key, PREFIXES));
  }

  // ---- Rounding ----

  /** The result is a number of four decimals, the nearest one; halfway between two, the even one. */
  lemma RoundMeaning(x: real) returns (n: int)
    ensures Round4(x) * 10000.0 == n as real && -0.5 <= n as real - x * 10000.0 <= 0.5
    ensures n as real - x * 10000.0 == 0.5 || n as real - x * 10000.0 == -0.5 ==> n % 2 == 0
  {
    var y := x * 10000.0 + 0.5;
    n := if y.Floor as real == y && y.Floor % 2 != 0 then y.Floor - 1 else y.Floor;
  }
}
