/**
 * The life cycle of the short-lived particles both games keep in a list.
 * Only the `life` counter and the removal rule are modelled; position,
 * velocity, damping, colour and text are cosmetic.
 */
module Particles {

  datatype Particle = Particle(life: real, maxLife: real)

  /** One tick of a single particle: its life goes down by one. */
  function Decremented(p: Particle): Particle
  {
    p.(life := p.life - 1.0)
  }

  /**
   * The list after one aging pass: every life counter goes down by one and
   * the particles whose counter is then at or below zero are dropped.
   */
  function Aged(ps: seq<Particle>): (r: seq<Particle>)
    ensures |r| <= |ps|
    ensures forall i :: 0 <= i < |r| ==> r[i].life > 0.0
  {
    if ps == [] then []
    else
      var p := Decremented(ps[0]);
      (if p.life <= 0.0 then [] else [p]) + Aged(ps[1..])
  }

  /** Aging a suffix of a list: the particle at its front is handled first, then the rest. */
  lemma AgedFrom(ps: seq<Particle>, i: nat)
    requires i < |ps|
    ensures Aged(ps[i..]) == (if ps[i].life - 1.0 <= 0.0 then [] else [Decremented(ps[i])])
                             + Aged(ps[i + 1..])
  {
    assert ps[i..][0] == ps[i] && ps[i..][1..] == ps[i + 1..];
  }

  /** A single particle survives exactly when its life was above one. */
  lemma AgedSingle(p: Particle)
    ensures Aged([p]) == if p.life > 1.0 then [p.(life := p.life - 1.0)] else []
  {
    assert [p][1..] == [];
  }

  /**
   * Aging distributes over concatenation: survivors keep their relative
   * order, and each part of the list is aged independently.
   */
  lemma {:induction false} AgedAppend(a: seq<Particle>, b: seq<Particle>)
    ensures Aged(a + b) == Aged(a) + Aged(b)
  {
    if a == [] {
      assert a + b == b;
    } else {
      assert (a + b)[0] == a[0];
      assert (a + b)[1..] == a[1..] + b;
      AgedAppend(a[1..], b);
    }
  }

  /**
   * A particle is in the aged list exactly when it is the decremented form
   * of some particle of the old list whose new life is still positive.
   */
  lemma {:induction false} AgedMembers(ps: seq<Particle>, q: Particle)
    ensures q in Aged(ps) <==>
      exists i :: 0 <= i < |ps| && q == Decremented(ps[i]) && q.life > 0.0
  {
    if ps != [] {
      AgedMembers(ps[1..], q);
      if exists i :: 0 <= i < |ps| && q == Decremented(ps[i]) && q.life > 0.0 {
        var i :| 0 <= i < |ps| && q == Decremented(ps[i]) && q.life > 0.0;
        if i > 0 {
          assert ps[1..][i - 1] == ps[i];
        }
      }
      if exists i :: 0 <= i < |ps[1..]| && q == Decremented(ps[1..][i]) && q.life > 0.0 {
        var i :| 0 <= i < |ps[1..]| && q == Decremented(ps[1..][i]) && q.life > 0.0;
        assert ps[i + 1] == ps[1..][i];
      }
    }
  }
}
