/**
 * Model.define_dt, max_elastic_wave_speed and number_of_steps: a step of a tenth of the time
 * an elastic wave takes to cross one element, shortened so that a whole number of steps
 * covers the total time exactly.
 */
module TimeSteps {
  import opened Wrappers
  import opened Numeric
  import opened Materials
  import opened Usl

  /** c is the elastic wave speed sqrt(young / rho) of m, stated without a square root. */
  ghost predicate IsWaveSpeed(m: Material, c: real) {
    m.rho != 0.0 && c >= 0.0 && c * c == m.young / m.rho
  }

  /** max() of a non-empty list. */
  function MaxOf(xs: seq<real>): (r: real)
    requires xs != []
    ensures r in xs && forall x | x in xs :: x <= r
    decreases |xs|
  {
    if |xs| == 1 then xs[0]
    else
      var m := MaxOf(xs[..|xs| - 1]);
      assert forall x | x in xs :: x in xs[..|xs| - 1] || x == xs[|xs| - 1];
      if xs[|xs| - 1] > m then xs[|xs| - 1] else m
  }

  /** The first value define_dt gives dt: 0.1 * elements_length() / max_elastic_wave_speed(). */
  function StableDt(numEls: int, length: real, speeds: seq<real>): (r: Result<real, Fault>)
    ensures r.Ok? <==> numEls != 0 && speeds != [] && MaxOf(speeds) != 0.0
    ensures numEls == 0 ==> r == Err(ZeroDivision)
    ensures numEls != 0 && speeds == [] ==> r == Err(EmptyMax)
  {
    if numEls == 0 then Err(ZeroDivision)
    else if speeds == [] then Err(EmptyMax)
    else if MaxOf(speeds) == 0.0 then Err(ZeroDivision)
    else Ok(0.1 * (length / numEls as real) / MaxOf(speeds))
  }

  /** define_dt: n = ceil(total / dt0) steps, and dt = total / n. */
  function DefineDt(numEls: int, length: real, speeds: seq<real>, total: real): (r: Result<real, Fault>)
    ensures r.Ok? ==> StableDt(numEls, length, speeds).Ok? && total != 0.0
    ensures StableDt(numEls, length, speeds).Err? ==> r == StableDt(numEls, length, speeds)
  {
    match StableDt(numEls, length, speeds)
    case Err(f) => Err(f)
    case Ok(dt0) =>
      if dt0 == 0.0 then Err(ZeroDivision)
      else
        var n := Ceil(total / dt0);
        if n == 0 then Err(ZeroDivision) else Ok(total / n as real)
  }

  /** number_of_steps: round(total / dt). */
  function NumberOfSteps(total: real, dt: real): (r: int)
    requires dt != 0.0
    ensures total / dt - 0.5 <= r as real <= total / dt + 0.5
  {
    Round(total / dt)
  }

  /**
   * For a positive total time, elements of positive length and a positive wave speed, dt is
   * positive, at most the stable step dt0, and exactly n = ceil(total / dt0) >= 1 steps of it
   * make up the total time, which is also what number_of_steps returns.
   */
  lemma DefineDtStable(numEls: int, length: real, speeds: seq<real>, total: real)
    requires numEls != 0 && length / numEls as real > 0.0
    requires speeds != [] && MaxOf(speeds) > 0.0 && total > 0.0
    ensures StableDt(numEls, length, speeds).Ok?
    ensures var dt0 := StableDt(numEls, length, speeds).value;
            var n := Ceil(total / dt0);
            var r := DefineDt(numEls, length, speeds, total);
            dt0 > 0.0 && n >= 1 && r.Ok? &&
            0.0 < r.value <= dt0 && n as real * r.value == total &&
            NumberOfSteps(total, r.value) == n
  {
    var h := length / numEls as real;
    var c := MaxOf(speeds);
    var dt0 := 0.1 * h / c;
    assert dt0 > 0.0;
    var q := total / dt0;
    assert q > 0.0;
    var n := Ceil(q);
    var dt := total / n as real;
    assert n as real * dt == total;
    assert q * dt0 == total;
    assert q <= n as real;
    ScaleStrict(n as real, q, dt0);
    assert total <= n as real * dt0;
    ScaleStrict(dt0, dt, n as real);
    assert total / dt == n as real;
    RoundOfInteger(n);
  }

  /** The same facts about a step define_dt returned. */
  lemma DefinedDtSteps(numEls: int, length: real, speeds: seq<real>, total: real, dt: real)
    requires numEls >= 1 && length > 0.0 && speeds != [] && MaxOf(speeds) > 0.0 && total > 0.0
    requires DefineDt(numEls, length, speeds, total) == Ok(dt)
    ensures dt > 0.0 && NumberOfSteps(total, dt) >= 1 && NumberOfSteps(total, dt) as real * dt == total
  {
    DefineDtStable(numEls, length, speeds, total);
  }

  /** A total time of 0 makes ceil(total / dt0) zero, and the division total / n raises ZeroDivisionError. */
  lemma DefineDtZeroTime(numEls: int, length: real, speeds: seq<real>)
    requires StableDt(numEls, length, speeds).Ok? && StableDt(numEls, length, speeds).value != 0.0
    ensures DefineDt(numEls, length, speeds, 0.0) == Err(ZeroDivision)
  {
    assert Ceil(0.0) == 0;
  }

}
