/** The status-effect table of an entity and the overlay colour computed from it
    (BaseEntity.recalculateEffectColor, the effect part of entityBaseTick, getMaxHealth). */
module Effects {

  datatype EffectKind = HealthBoost | FireResistance | JumpBoost | SlowFalling | OtherKind(id: nat)

  /** An effect kind's particle colour, one int per channel. */
  datatype Rgb = Rgb(r: int, g: int, b: int)

  datatype Effect = Effect(kind: EffectKind, amplifier: nat, duration: int,
                           visible: bool, ambient: bool, color: Rgb, canTick: bool)

  /** The `effects` map of an entity: one entry per kind. */
  type EffectTable = map<EffectKind, Effect>

  /** Every entry is stored under its own kind, as `effects.put(effect.getType(), effect)` does. */
  ghost predicate WellKeyed(m: EffectTable) {
    forall k :: k in m ==> m[k].kind == k
  }

  // ---------------------------------------------------------------------------
  // The weighted colour average
  // ---------------------------------------------------------------------------

  /** The four accumulators of recalculateEffectColor: three colour sums and the weight count. */
  datatype Channel = Red | Green | Blue | Weight

  /** What one effect adds to an accumulator: invisible effects add nothing,
      a visible one weighs amplifier + 1. */
  function Term(e: Effect, ch: Channel): int {
    if !e.visible then 0
    else
      var w := e.amplifier + 1;
      match ch
      case Red => e.color.r * w
      case Green => e.color.g * w
      case Blue => e.color.b * w
      case Weight => w
  }

  ghost function Pick(ks: set<EffectKind>): (k: EffectKind)
    requires ks != {}
    ensures k in ks
  {
    var k :| k in ks; k
  }

  /** The value an accumulator holds after visiting the kinds `ks`, in any order. */
  ghost function Total(m: EffectTable, ks: set<EffectKind>, ch: Channel): int
    requires ks <= m.Keys
    decreases ks
  {
    if ks == {} then 0
    else
      var k := Pick(ks);
      Term(m[k], ch) + Total(m, ks - {k}, ch)
  }

  /** The sum does not depend on the visiting order: any kind can be taken out first. */
  lemma {:induction false} TotalRemove(m: EffectTable, ks: set<EffectKind>, j: EffectKind, ch: Channel)
    requires ks <= m.Keys && j in ks
    ensures Total(m, ks, ch) == Term(m[j], ch) + Total(m, ks - {j}, ch)
    decreases ks
  {
    var k := Pick(ks);
    if k != j {
      calc {
        Total(m, ks, ch);
        Term(m[k], ch) + Total(m, ks - {k}, ch);
        { TotalRemove(m, ks - {k}, j, ch); }
        Term(m[k], ch) + Term(m[j], ch) + Total(m, ks - {k} - {j}, ch);
        { assert ks - {k} - {j} == ks - {j} - {k}; }
        Term(m[j], ch) + (Term(m[k], ch) + Total(m, ks - {j} - {k}, ch));
        { TotalRemove(m, ks - {j}, k, ch); }
        Term(m[j], ch) + Total(m, ks - {j}, ch);
      }
    }
  }

  /** Two tables whose entries contribute alike over `ks` have the same sums over `ks`. */
  lemma {:induction false} TotalCongruent(m: EffectTable, m': EffectTable, ks: set<EffectKind>, ch: Channel)
    requires ks <= m.Keys && ks <= m'.Keys
    requires forall k :: k in ks ==> Term(m[k], ch) == Term(m'[k], ch)
    ensures Total(m, ks, ch) == Total(m', ks, ch)
    decreases ks
  {
    if ks != {} {
      var k := Pick(ks);
      TotalCongruent(m, m', ks - {k}, ch);
    }
  }

  /** The weight count is never negative, and it is positive exactly when a visible effect is among `ks`. */
  lemma {:induction false} WeightCount(m: EffectTable, ks: set<EffectKind>)
    requires ks <= m.Keys
    ensures Total(m, ks, Weight) >= 0
    ensures Total(m, ks, Weight) > 0 <==> exists k :: k in ks && m[k].visible
    decreases ks
  {
    if ks != {} {
      var k := Pick(ks);
      WeightCount(m, ks - {k});
      if m[k].visible {
        assert Term(m[k], Weight) >= 1;
      } else {
        assert forall j :: j in ks && m[j].visible ==> j in ks - {k};
      }
    }
  }

  /** Java's int division truncates toward zero (Dafny's rounds toward negative infinity). */
  function TruncDiv(a: int, b: int): int
    requires b > 0
  {
    if a >= 0 then a / b else -((-a) / b)
  }

  /** The truncated quotient brackets the dividend, and is the negated quotient of the
      negation for a negative dividend. */
  lemma TruncDivBracket(a: int, b: int)
    requires b > 0
    ensures a >= 0 ==> TruncDiv(a, b) >= 0 && TruncDiv(a, b) * b <= a < TruncDiv(a, b) * b + b
    ensures a < 0 ==> TruncDiv(a, b) <= 0 && -TruncDiv(a, b) == (-a) / b
  {
    if a >= 0 {
      FloorDivBracket(a, b);
    } else {
      FloorDivBracket(-a, b);
    }
  }

  /** Dafny's division of a non-negative dividend by a positive divisor is the floor. */
  lemma FloorDivBracket(a: int, b: int)
    requires a >= 0 && b > 0
    ensures a / b >= 0 && (a / b) * b <= a < (a / b) * b + b
  {
    var q, r := a / b, a % b;
    assert a == b * q + r && 0 <= r < b;
    if q < 0 {
      ScaleMonotone(q, -1, b);
    }
    assert q * b == b * q;
  }

  /** `(sum / count) & 0xff`: the mask keeps the low 8 bits, a non-negative remainder modulo 256. */
  function Channel8(sum: int, count: int): (c: int)
    requires count > 0
    ensures 0 <= c < 256
  {
    TruncDiv(sum, count) % 256
  }

  /** A weighted average of 8-bit channel values is kept unmasked: it is the floor of
      `sum / count`. */
  lemma Channel8Average(sum: int, count: int)
    requires count > 0 && 0 <= sum < 256 * count
    ensures Channel8(sum, count) * count <= sum < Channel8(sum, count) * count + count
  {
    TruncDivBracket(sum, count);
    var q := sum / count;
    if q >= 256 {
      ScaleMonotone(256, q, count);
    }
    assert 0 <= q < 256;
    assert Channel8(sum, count) == q;
  }

  /** Multiplying by a non-negative factor keeps the order. */
  lemma ScaleMonotone(a: int, b: int, c: int)
    requires a <= b && c >= 0
    ensures a * c <= b * c
  {
    assert b * c - a * c == (b - a) * c;
  }

  /** The EFFECT_COLOR value, `(r << 16) + (g << 8) + b`, of a table. */
  ghost function PackedColor(m: EffectTable): (rgb: int)
    ensures 0 <= rgb < 0x100_0000
  {
    var count := Total(m, m.Keys, Weight);
    if count > 0 then
      Channel8(Total(m, m.Keys, Red), count) * 0x1_0000
      + Channel8(Total(m, m.Keys, Green), count) * 0x100
      + Channel8(Total(m, m.Keys, Blue), count)
    else 0
  }

  ghost predicate AllVisibleAmbient(m: EffectTable) {
    forall k :: k in m && m[k].visible ==> m[k].ambient
  }

  /** The EFFECT_AMBIENT byte of a table. */
  ghost function AmbientByte(m: EffectTable): (a: int)
    ensures a == 0 || a == 1
  {
    if Total(m, m.Keys, Weight) > 0 && AllVisibleAmbient(m) then 1 else 0
  }

  /** With no visible effect, colour and ambient byte are both zero. */
  lemma NoVisibleEffect(m: EffectTable)
    requires forall k :: k in m ==> !m[k].visible
    ensures PackedColor(m) == 0 && AmbientByte(m) == 0
  {
    WeightCount(m, m.Keys);
  }

  /** The ambient byte is 1 exactly when there is a visible effect and every visible effect is ambient. */
  lemma AmbientExactly(m: EffectTable)
    ensures AmbientByte(m) == 1 <==> (exists k :: k in m && m[k].visible) && AllVisibleAmbient(m)
  {
    WeightCount(m, m.Keys);
  }

  /** An invisible effect never changes colour or ambient byte: the table with it
      looks like the table without its kind. */
  lemma InvisibleEffectIgnored(m: EffectTable, e: Effect)
    requires !e.visible
    ensures PackedColor(m[e.kind := e]) == PackedColor(m - {e.kind})
    ensures AmbientByte(m[e.kind := e]) == AmbientByte(m - {e.kind})
  {
    var m1, m0 := m[e.kind := e], m - {e.kind};
    assert m1.Keys - {e.kind} == m0.Keys;
    forall ch | true ensures Total(m1, m1.Keys, ch) == Total(m0, m0.Keys, ch) {
      TotalRemove(m1, m1.Keys, e.kind, ch);
      TotalCongruent(m1, m0, m0.Keys, ch);
    }
    assert forall k :: k in m1 && m1[k].visible ==> k in m0 && m0[k] == m1[k];
    assert forall k :: k in m0 ==> k in m1 && m1[k] == m0[k];
  }

  /** Replacing an entry by one that differs only in its duration keeps colour and ambient byte. */
  lemma DurationIrrelevant(m: EffectTable, k: EffectKind, d: int)
    requires k in m
    ensures PackedColor(m[k := m[k].(duration := d)]) == PackedColor(m)
    ensures AmbientByte(m[k := m[k].(duration := d)]) == AmbientByte(m)
  {
    var m1 := m[k := m[k].(duration := d)];
    assert m1.Keys == m.Keys;
    forall ch | true ensures Total(m1, m1.Keys, ch) == Total(m, m.Keys, ch) {
      TotalCongruent(m1, m, m.Keys, ch);
    }
    assert AllVisibleAmbient(m1) == AllVisibleAmbient(m);
  }

  /** The loop of recalculateEffectColor: one pass over the table accumulating the three
      weighted colour sums, the weight count and the ambient flag. */
  method ComputeEffectColor(m: EffectTable) returns (color: int, ambient: int)
    ensures color == PackedColor(m) && ambient == AmbientByte(m)
    ensures 0 <= color < 0x100_0000
  {
    var r, g, b, count := 0, 0, 0, 0;
    var amb := true;
    var todo := m.Keys;
    while todo != {}
      invariant todo <= m.Keys
      invariant r == Total(m, m.Keys - todo, Red)
      invariant g == Total(m, m.Keys - todo, Green)
      invariant b == Total(m, m.Keys - todo, Blue)
      invariant count == Total(m, m.Keys - todo, Weight)
      invariant amb <==> forall k :: k in m.Keys - todo && m[k].visible ==> m[k].ambient
      decreases todo
    {
      var k :| k in todo;
      var e := m[k];
      if e.visible {
        r := r + e.color.r * (e.amplifier + 1);
        g := g + e.color.g * (e.amplifier + 1);
        b := b + e.color.b * (e.amplifier + 1);
        count := count + e.amplifier + 1;
        if !e.ambient {
          amb := false;
        }
      }
      var done := m.Keys - todo + {k};
      assert done - {k} == m.Keys - todo;
      TotalRemove(m, done, k, Red);
      TotalRemove(m, done, k, Green);
      TotalRemove(m, done, k, Blue);
      TotalRemove(m, done, k, Weight);
      todo := todo - {k};
      assert m.Keys - todo == done;
    }
    assert m.Keys - todo == m.Keys;
    if count > 0 {
      color := Channel8(r, count) * 0x1_0000 + Channel8(g, count) * 0x100 + Channel8(b, count);
      ambient := if amb then 1 else 0;
    } else {
      color, ambient := 0, 0;
    }
  }

  // ---------------------------------------------------------------------------
  // Ticking durations and the health-boost bonus
  // ---------------------------------------------------------------------------

  /** The table after one pass of the effect loop of entityBaseTick: every duration is lowered
      by `tickDiff` and the entries that reach zero or below are removed. */
  function TickEffects(m: EffectTable, tickDiff: int): EffectTable {
    map k | k in m && m[k].duration - tickDiff > 0 :: m[k].(duration := m[k].duration - tickDiff)
  }

  /** After the loop a kind is present exactly when its lowered duration is positive, and it
      then holds the old effect with that duration. */
  lemma TickEffectsEntries(m: EffectTable, tickDiff: int, k: EffectKind)
    ensures k in TickEffects(m, tickDiff) <==> k in m && m[k].duration - tickDiff > 0
    ensures k in TickEffects(m, tickDiff) ==>
      TickEffects(m, tickDiff)[k] == m[k].(duration := m[k].duration - tickDiff) && TickEffects(m, tickDiff)[k].duration > 0
  {
  }

  /** One step of the effect loop on kind `k`. */
  function DecayStep(m: EffectTable, k: EffectKind, tickDiff: int): (r: EffectTable)
    requires k in m
    ensures r.Keys <= m.Keys && (k in r <==> m[k].duration - tickDiff > 0)
    ensures forall j :: j in m && j != k ==> j in r && r[j] == m[j]
  {
    if m[k].duration - tickDiff > 0 then m[k := m[k].(duration := m[k].duration - tickDiff)] else m - {k}
  }

  /** The table while the effect loop still has the kinds `todo` to visit. */
  ghost function PartlyTicked(m: EffectTable, todo: set<EffectKind>, tickDiff: int): EffectTable {
    map k | k in m && (k in todo || m[k].duration - tickDiff > 0) ::
      if k in todo then m[k] else m[k].(duration := m[k].duration - tickDiff)
  }

  lemma PartlyTickedStep(m: EffectTable, todo: set<EffectKind>, k: EffectKind, tickDiff: int)
    requires k in todo && todo <= m.Keys
    ensures k in PartlyTicked(m, todo, tickDiff)
    ensures PartlyTicked(m, todo - {k}, tickDiff) == DecayStep(PartlyTicked(m, todo, tickDiff), k, tickDiff)
  {
    var p := PartlyTicked(m, todo, tickDiff);
    assert p[k] == m[k];
    var l, r := PartlyTicked(m, todo - {k}, tickDiff), DecayStep(p, k, tickDiff);
    assert l.Keys == r.Keys;
    forall j | j in l ensures l[j] == r[j] {
    }
  }

  lemma PartlyTickedDone(m: EffectTable, tickDiff: int)
    ensures PartlyTicked(m, {}, tickDiff) == TickEffects(m, tickDiff)
  {
  }

  /** A tick keeps the table keyed by kind and never adds an entry. */
  lemma TickEffectsShrinks(m: EffectTable, tickDiff: int)
    requires WellKeyed(m)
    ensures WellKeyed(TickEffects(m, tickDiff)) && TickEffects(m, tickDiff).Keys <= m.Keys
  {
  }

  /** getMaxHealth: the base value plus 4 * (amplifier + 1) under a health-boost effect. */
  function MaxHealthWith(base: int, m: EffectTable): (r: int)
    ensures r >= base
    ensures r == base <==> HealthBoost !in m
    ensures HealthBoost in m ==> r - base == 4 * (m[HealthBoost].amplifier + 1)
  {
    base + (if HealthBoost in m then 4 * (m[HealthBoost].amplifier + 1) else 0)
  }

  /** The jump-boost reduction of fall damage: amplifier + 1, or 0 without the effect. */
  function JumpBoostBonus(m: EffectTable): (r: int)
    ensures r >= 0 && (r == 0 <==> JumpBoost !in m)
  {
    if JumpBoost in m then m[JumpBoost].amplifier + 1 else 0
  }
}
