/**
 The damped pendulum that makes a hand trail behind a turning body, stepped by semi-implicit Euler with
 a bounded time step, over the reals.
 */
module ArmSwing {
  import opened ArmIk
  import opened Basics

  const DRAG := 5.5
  const STIFFNESS := 40.0
  const DAMPING := 7.0
  const MAX_M := 0.06
  const MAX_DT := 0.05

  /** Offset and velocity of the hand's target. */
  datatype SwingState = SwingState(x: real, z: real, vx: real, vz: real)

  function TimeStep(dt: real): real {
    Min(Max(dt, 0.0), MAX_DT)
  }

  /** Velocity of one coordinate after h seconds, the hanging point moving at `drift`. */
  function NextVelocity(p: real, v: real, drift: real, h: real): real {
    v + (-DRAG * drift - STIFFNESS * p - DAMPING * v) * h
  }

  function NextPlace(p: real, v: real, drift: real, h: real): real {
    p + NextVelocity(p, v, drift, h) * h
  }

  function Amplitude2(st: SwingState): real {
    st.x * st.x + st.z * st.z
  }

  /** The length of the offset. */
  function Hypot(m: Maths, x: real, z: real): real {
    m.sqrt(x * x + z * z)
  }

  function Moved(st: SwingState, x: real, z: real, omega: real, h: real): SwingState {
    SwingState(NextPlace(st.x, st.vx, omega * z, h), NextPlace(st.z, st.vz, -omega * x, h),
               NextVelocity(st.x, st.vx, omega * z, h), NextVelocity(st.z, st.vz, -omega * x, h))
  }

  function Shrunk(st: SwingState, k: real): SwingState {
    SwingState(st.x * k, st.z * k, st.vx * k, st.vz * k)
  }

  function Limited(m: Maths, st: SwingState): SwingState {
    var far := Hypot(m, st.x, st.z);
    if far > MAX_M then Shrunk(st, MAX_M / far) else st
  }

  function Step(m: Maths, st: SwingState, x: real, z: real, omega: real, dt: real): SwingState {
    var h := TimeStep(dt);
    if h == 0.0 then st else Limited(m, Moved(st, x, z, omega, h))
  }

  // ---- The amplitude ----

  /** However the body is thrown about, a step that moves the hand leaves it within its bound. */
  lemma StaysWithinBound(m: Maths, st: SwingState, x: real, z: real, omega: real, dt: real)
    requires Lawful(m)
    ensures dt > 0.0 || Amplitude2(st) <= MAX_M * MAX_M ==>
              Amplitude2(Step(m, st, x, z, omega, dt)) <= MAX_M * MAX_M
  {
  }

  // ---- Coming to rest ----

  /** Energy of one coordinate. */
  function Energy1(p: real, v: real): real {
    STIFFNESS * (p * p) + v * v
  }

  function Energy(st: SwingState): real {
    Energy1(st.x, st.vx) + Energy1(st.z, st.vz)
  }

  lemma NotNegative(a: real, b: real)
    requires a >= 0.0 && b >= 0.0
    ensures a * b >= 0.0
  {
  }

  lemma Fraction(k: real)
    requires 0.0 <= k <= 1.0
    ensures 0.0 <= k * k <= k
  {
    NotNegative(k, k);
    NotNegative(k, 1.0 - k);
    assert k * (1.0 - k) == k - k * k;
  }

  lemma SquareBound(h: real)
    requires 0.0 <= h <= MAX_DT
    ensures 1600.0 * (1.0 - 40.0 * (h * h)) >= 1440.0
    ensures 0.0 <= 1600.0 * h * (1.0 - 7.0 * h) <= 80.0
    ensures 14.0 - 49.0 * h - 40.0 * h * ((1.0 - 7.0 * h) * (1.0 - 7.0 * h)) >= 191.0 * h
  {
    var r := 1.0 - 7.0 * h;
    assert h * h <= MAX_DT * h;
    Fraction(r);
    assert 0.0 <= h * r <= h;
    assert 0.0 <= h * (r * r) <= h;
    assert 40.0 * h * (r * r) == 40.0 * (h * (r * r));
    assert 1600.0 * h * r == 1600.0 * (h * r);
  }

  /** A form whose mixed term is dominated by the other two is never negative. */
  lemma DominatedForm(a: real, b: real, c: real, p: real, v: real)
    requires 0.0 <= b <= a && b <= c
    ensures a * (p * p) + 2.0 * (b * (p * v)) + c * (v * v) >= 0.0
  {
    var pp, vv := p * p, v * v;
    assert pp >= 0.0 && vv >= 0.0;
    assert (a - b) * pp >= 0.0 && (c - b) * vv >= 0.0;
    assert (p + v) * (p + v) == pp + 2.0 * (p * v) + vv;
    var sum := p + v;
    assert sum * sum >= 0.0;
    NotNegative(b, sum * sum);
    assert b * ((p + v) * (p + v)) == b * pp + 2.0 * (b * (p * v)) + b * vv;
  }

  /** With the weights of one step, the drop is not negative. */
  lemma DropIsNotNegative(h: real, a: real, b: real, c: real, p: real, v: real)
    requires h >= 0.0 && a >= 1440.0 && 0.0 <= b <= 80.0 && c >= 191.0 * h
    ensures h * h * (a * (p * p) + 2.0 * (b * (p * v))) + h * c * (v * v) >= 0.0
  {
    var vv := v * v;
    DominatedForm(a, b, 191.0, p, v);
    var form := a * (p * p) + 2.0 * (b * (p * v));
    assert h * h >= 0.0 && vv >= 0.0;
    assert h * h * (form + 191.0 * vv) >= 0.0;
    assert h * c >= h * (191.0 * h);
    assert h * c * vv >= h * (191.0 * h) * vv;
    assert h * (191.0 * h) * vv == h * h * (191.0 * vv);
    assert h * h * (form + 191.0 * vv) == h * h * form + h * h * (191.0 * vv);
  }

  lemma CoordinateLosesEnergy(p: real, v: real, h: real)
    requires 0.0 <= h <= MAX_DT
    ensures Energy1(NextPlace(p, v, 0.0, h), NextVelocity(p, v, 0.0, h)) <= Energy1(p, v)
  {
    SquareBound(h);
    DropIsNotNegative(h, 1600.0 * (1.0 - 40.0 * (h * h)), 1600.0 * h * (1.0 - 7.0 * h),
                      14.0 - 49.0 * h - 40.0 * h * ((1.0 - 7.0 * h) * (1.0 - 7.0 * h)), p, v);
  }

  lemma ShrinkingLosesEnergy(p: real, v: real, k: real)
    requires 0.0 <= k <= 1.0
    ensures Energy1(p * k, v * k) <= Energy1(p, v)
  {
    var e := Energy1(p, v);
    assert p * p >= 0.0 && v * v >= 0.0;
    Fraction(k);
    assert (p * k) * (p * k) == k * k * (p * p);
    assert (v * k) * (v * k) == k * k * (v * v);
    assert Energy1(p * k, v * k) == k * k * e;
    NotNegative(1.0 - k * k, e);
    assert (1.0 - k * k) * e == e - k * k * e;
  }

  lemma LimitingLosesEnergy(m: Maths, st: SwingState)
    requires Lawful(m)
    ensures Energy(Limited(m, st)) <= Energy(st)
  {
    var far := Hypot(m, st.x, st.z);
    if far > MAX_M {
      var k := MAX_M / far;
      assert k * far == MAX_M;
      assert 0.0 <= k <= 1.0;
      ShrinkingLosesEnergy(st.x, st.vx, k);
      ShrinkingLosesEnergy(st.z, st.vz, k);
    }
  }

  /** Once the body stands still the swing only dies down, whatever the frame times are. */
  lemma EnergyNeverGrows(m: Maths, st: SwingState, x: real, z: real, dt: real)
    requires Lawful(m)
    ensures Energy(Step(m, st, x, z, 0.0, dt)) <= Energy(st)
  {
    var h := TimeStep(dt);
    CoordinateLosesEnergy(st.x, st.vx, h);
    CoordinateLosesEnergy(st.z, st.vz, h);
    assert 0.0 * z == 0.0 && -0.0 * x == 0.0;
    LimitingLosesEnergy(m, Moved(st, x, z, 0.0, h));
  }

  /** A run of frames: the hanging point and the time since the frame before. */
  datatype Frame = Frame(x: real, z: real, omega: real, dt: real)

  function Run(m: Maths, st: SwingState, frames: seq<Frame>): SwingState
    decreases |frames|
  {
    if frames == [] then st
    else var f := frames[0]; Run(m, Step(m, st, f.x, f.z, f.omega, f.dt), frames[1..])
  }

  /** Over every run the hand stays within its bound; over one with the body at rest the energy never grows. */
  lemma {:induction false} SwingIsTame(m: Maths, st: SwingState, frames: seq<Frame>)
    requires Lawful(m) && Amplitude2(st) <= MAX_M * MAX_M
    ensures Amplitude2(Run(m, st, frames)) <= MAX_M * MAX_M
    ensures (forall f :: f in frames ==> f.omega == 0.0) ==> Energy(Run(m, st, frames)) <= Energy(st)
    decreases |frames|
  {
    if frames != [] {
      var f := frames[0];
      StaysWithinBound(m, st, f.x, f.z, f.omega, f.dt);
      EnergyNeverGrows(m, st, f.x, f.z, f.dt);
      SwingIsTame(m, Step(m, st, f.x, f.z, f.omega, f.dt), frames[1..]);
      assert f in frames && forall g :: g in frames[1..] ==> g in frames;
    }
  }

  // ---- The throw ----

  /** Seconds of a step: no more than 0.05. */
  function Seconds(dt: real): real
    requires dt > 0.0
  {
    if dt <= 0.05 then dt else 0.05
  }

  /** How far a velocity of 1 m/s throws the hand in h seconds. */
  function Throw(h: real): real {
    5.5 * (h * h)
  }

  lemma FromRest(drift: real, h: real)
    ensures NextPlace(0.0, 0.0, drift, h) == -Throw(h) * drift
  {
    assert NextVelocity(0.0, 0.0, drift, h) == -5.5 * drift * h;
    assert -5.5 * drift * h * h == -5.5 * drift * (h * h);
  }

  const AT_REST := SwingState(0.0, 0.0, 0.0, 0.0)

  lemma StepFromRest(m: Maths, x: real, z: real, omega: real, dt: real) returns (moved: SwingState)
    requires dt > 0.0
    ensures Step(m, AT_REST, x, z, omega, dt) == Limited(m, moved)
    ensures moved.x == -Throw(Seconds(dt)) * (omega * z) && moved.z == -Throw(Seconds(dt)) * (-omega * x)
  {
    var h := Seconds(dt);
    moved := Moved(AT_REST, x, z, omega, h);
    FromRest(omega * z, h);
    FromRest(-omega * x, h);
  }

  lemma LimitedToBound(m: Maths, st: SwingState) returns (s: real)
    requires Lawful(m)
    ensures Limited(m, st) == Shrunk(st, s) && 0.0 < s <= 1.0
    ensures s == 1.0 || Amplitude2(Limited(m, st)) == 0.06 * 0.06
  {
    s := 1.0;
    var far := Hypot(m, st.x, st.z);
    if far > MAX_M {
      s := MAX_M / far;
      assert s * far == MAX_M;
      assert (s * far) * (s * far) == s * s * (far * far);
      assert (st.x * s) * (st.x * s) == s * s * (st.x * st.x) && (st.z * s) * (st.z * s) == s * s * (st.z * st.z);
    }
  }

  lemma Scaled(full: real, s: real, v: real)
    requires 0.0 < s <= 1.0
    ensures (-full * v) * s == -(full * s) * v
  {
  }

  lemma ProductIsPositive(a: real, b: real)
    requires a > 0.0 && b > 0.0
    ensures a * b > 0.0
  {
  }

  lemma ThrowIsPositive(h: real)
    requires h > 0.0
    ensures Throw(h) > 0.0
  {
    var a := 5.5 * h;
    ProductIsPositive(a, h);
    assert Throw(h) == a * h;
  }

  /** The hand is k times the velocity behind: all of `full`, or what reaches the bound of 6 cm. */
  predicate Thrown(t: SwingState, vx: real, vz: real, full: real, k: real) {
    t.x == -k * vx && t.z == -k * vz && 0.0 < k <= full && (k == full || Amplitude2(t) == 0.06 * 0.06)
  }

  lemma ThrowIsLimited(m: Maths, st: SwingState, full: real, x: real, z: real) returns (k: real)
    requires Lawful(m) && full > 0.0 && st.x == -full * x && st.z == -full * z
    ensures Thrown(Limited(m, st), x, z, full, k)
  {
    var s := LimitedToBound(m, st);
    k := full * s;
    ProductIsPositive(full, s);
    NotNegative(full, 1.0 - s);
    Scaled(full, s, x);
    Scaled(full, s, z);
  }

  /** A hand at rest is thrown against the velocity of its hanging point, which is (omega z, -omega x) for
      a body that turns around the upright axis: as far as `Throw` says, or to the bound of 6 cm. */
  lemma ThrownBack(m: Maths, x: real, z: real, omega: real, dt: real) returns (k: real)
    requires Lawful(m) && dt > 0.0
    ensures Thrown(Step(m, AT_REST, x, z, omega, dt), omega * z, -omega * x, Throw(Seconds(dt)), k)
  {
    var moved := StepFromRest(m, x, z, omega, dt);
    ThrowIsPositive(Seconds(dt));
    k := ThrowIsLimited(m, moved, Throw(Seconds(dt)), omega * z, -omega * x);
  }

  // ---- The state that the drawing loop updates in place ----

  class ArmSwing {
    var x: real
    var z: real
    var vx: real
    var vz: real

    constructor ()
      ensures State() == AT_REST
    {
      x, z, vx, vz := 0.0, 0.0, 0.0, 0.0;
    }

    function State(): SwingState
      reads this
    {
      SwingState(x, z, vx, vz)
    }

    /** Semi-implicit Euler: the velocity first, then the place with the new velocity. */
    method Advance(atX: real, atZ: real, omega: real, h: real)
      modifies this
      ensures State() == Moved(old(State()), atX, atZ, omega, h)
    {
      var driftX := omega * atZ;
      var driftZ := -omega * atX;
      var ax := -DRAG * driftX - STIFFNESS * x - DAMPING * vx;
      var az := -DRAG * driftZ - STIFFNESS * z - DAMPING * vz;
      vx := vx + ax * h;
      vz := vz + az * h;
      x := x + vx * h;
      z := z + vz * h;
    }

    /** Pulls the hand back to its bound, slowing it by the same factor. */
    method Limit(m: Maths)
      modifies this
      ensures State() == Limited(m, old(State()))
    {
      var far := Hypot(m, x, z);
      if far > MAX_M {
        var k := MAX_M / far;
        x, z, vx, vz := x * k, z * k, vx * k, vz * k;
      }
    }

    method StepArmSwing(m: Maths, atX: real, atZ: real, omega: real, dt: real)
      modifies this
      ensures State() == Step(m, old(State()), atX, atZ, omega, dt)
    {
      var h := Min(Max(dt, 0.0), MAX_DT);
      if h == 0.0 {
        return;
      }
      Advance(atX, atZ, omega, h);
      Limit(m);
    }
  }
}
