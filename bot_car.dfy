/** The waypoint-following bot car (class `BotCar`). The vector maths of a frame
    (distance, normalised direction, slerped heading) is supplied by the caller. */
module Bot {
  import opened Collision

  datatype Vec3 = Vec3(x: real, y: real, z: real)
  datatype Quat = Quat(x: real, y: real, z: real, w: real)

  /** A position and orientation, as held by a physics body or a mesh. */
  datatype Pose = Pose(position: Vec3, quaternion: Quat)

  /** The orientation a new physics body starts with. */
  const Identity: Quat := Quat(0.0, 0.0, 0.0, 1.0)

  /** Speed per frame while cruising, and while stopped after a collision. */
  const CruiseVelocity: real := 0.05
  const SlowVelocity: real := 0.015

  /** A target at most this far away counts as reached. */
  const ArrivalThreshold: real := 1.0

  /** The mesh sits this much below the body it mirrors. */
  const MeshYOffset: real := 0.48

  /** The index after arriving at waypoint `i` of `n`: one on, wrapping to 0 after the last. */
  function NextWaypointIndex(i: nat, n: nat): (r: nat)
    requires i < n
    ensures r < n
    ensures r == (i + 1) % n
  {
    if i + 1 >= n then 0 else i + 1
  }

  /** The index after `k` arrivals starting at waypoint `i` of `n`. */
  function IndexAfterArrivals(i: nat, n: nat, k: nat): (r: nat)
    requires i < n
    ensures r < n
  {
    if k == 0 then i else NextWaypointIndex(IndexAfterArrivals(i, n, k - 1), n)
  }

  lemma MulAtLeast(d: int, n: int)
    requires d >= 1 && n > 0
    ensures d * n >= n
  {
  }

  /** Euclidean remainder is determined by any quotient/remainder split. */
  lemma ModUnique(x: int, n: int, q: int, r: int)
    requires n > 0 && 0 <= r < n && x == q * n + r
    ensures x % n == r
  {
    var q', r' := x / n, x % n;
    assert x == q' * n + r';
    var d := q - q';
    assert d * n == r' - r;
    if d >= 1 {
      MulAtLeast(d, n);
    } else if d <= -1 {
      MulAtLeast(-d, n);
    }
  }

  lemma ModSucc(a: nat, n: nat)
    requires n > 0
    ensures (a % n + 1) % n == (a + 1) % n
  {
    var q, r := a / n, a % n;
    assert a == q * n + r;
    if r + 1 < n {
      ModUnique(a + 1, n, q, r + 1);
      ModUnique(r + 1, n, 0, r + 1);
    } else {
      assert a + 1 == (q + 1) * n + 0;
      ModUnique(a + 1, n, q + 1, 0);
      ModUnique(n, n, 1, 0);
    }
  }

  /** `k` arrivals move the target `k` places round the cycle. */
  lemma {:induction false} ArrivalsAdvanceModulo(i: nat, n: nat, k: nat)
    requires i < n
    ensures IndexAfterArrivals(i, n, k) == (i + k) % n
  {
    if k > 0 {
      ArrivalsAdvanceModulo(i, n, k - 1);
      ModSucc(i + k - 1, n);
    }
  }

  /** After one full lap of `n` arrivals the bot heads for the same waypoint again. */
  lemma FullLap(i: nat, n: nat)
    requires i < n
    ensures IndexAfterArrivals(i, n, n) == i
  {
    ArrivalsAdvanceModulo(i, n, n);
    ModUnique(i + n, n, 1, i);
  }

  /** Within one lap every waypoint of the list becomes the target. */
  lemma EveryWaypointTargeted(i: nat, n: nat, j: nat)
    requires i < n && j < n
    ensures exists k :: 0 <= k < n && IndexAfterArrivals(i, n, k) == j
  {
    var k := if j >= i then j - i else j + n - i;
    ArrivalsAdvanceModulo(i, n, k);
    if j >= i {
      ModUnique(j, n, 0, j);
    } else {
      ModUnique(j + n, n, 1, j);
    }
  }

  class BotCar {
    const waypoints: seq<Vec3>
    var currentWaypointIndex: nat
    var velocity: real
    var isStopped: bool
    /** How many restore timers (the `setTimeout` of `stopForCollision`) are scheduled and have not fired. */
    var pendingRestores: nat
    var body: Pose
    var mesh: Pose

    /** The index stays on the list, and the stopped flag, the speed and the
        scheduled timer agree. */
    ghost predicate Valid()
      reads this
    {
      && (|waypoints| > 0 ==> currentWaypointIndex < |waypoints|)
      && (|waypoints| == 0 ==> currentWaypointIndex == 0)
      && pendingRestores == (if isStopped then 1 else 0)
      && velocity == (if isStopped then SlowVelocity else CruiseVelocity)
    }

    /** `scene` is the loaded model's transform; the body is placed at `position`. */
    constructor (scene: Pose, position: Vec3, waypoints: seq<Vec3>)
      ensures Valid()
      ensures this.waypoints == waypoints && currentWaypointIndex == 0
      ensures velocity == CruiseVelocity && !isStopped && pendingRestores == 0
      ensures body == Pose(position, Identity) && mesh == scene
    {
      this.waypoints := waypoints;
      currentWaypointIndex := 0;
      velocity := CruiseVelocity;
      isStopped := false;
      pendingRestores := 0;
      body := Pose(position, Identity);
      mesh := scene;
    }

    /** `onCollision`: only a body tagged `car` makes the bot stop. */
    method OnCollision(other: BodyTag)
      requires Valid()
      modifies this
      ensures Valid()
      ensures !IsCar(other) || old(isStopped) ==> unchanged(this)
      ensures IsCar(other) && !old(isStopped) ==>
        isStopped && velocity == SlowVelocity && pendingRestores == 1
      ensures currentWaypointIndex == old(currentWaypointIndex) && body == old(body) && mesh == old(mesh)
    {
      if IsCar(other) {
        StopForCollision();
      }
    }

    /** `stopForCollision`: slows the bot and schedules one restore, unless it is already stopped. */
    method StopForCollision()
      requires Valid()
      modifies this
      ensures Valid()
      ensures old(isStopped) ==> unchanged(this)
      ensures !old(isStopped) ==>
        isStopped && velocity == SlowVelocity && pendingRestores == old(pendingRestores) + 1
      ensures currentWaypointIndex == old(currentWaypointIndex) && body == old(body) && mesh == old(mesh)
    {
      if !isStopped {
        isStopped := true;
        velocity := SlowVelocity;
        pendingRestores := pendingRestores + 1;
      }
    }

    /** The scheduled restore timer fires: cruise speed is back. */
    method Expire()
      requires Valid() && pendingRestores > 0
      modifies this
      ensures Valid()
      ensures !isStopped && velocity == CruiseVelocity && pendingRestores == old(pendingRestores) - 1
      ensures currentWaypointIndex == old(currentWaypointIndex) && body == old(body) && mesh == old(mesh)
    {
      isStopped := false;
      velocity := CruiseVelocity;
      pendingRestores := pendingRestores - 1;
    }

    /** `update`, one frame. `distance` is the distance from the mesh to the current
        target, `direction` the normalised planar direction towards it, and `turned`
        the body orientation slerped towards the heading of `direction`. */
    method Update(distance: real, direction: Vec3, turned: Quat)
      requires Valid()
      modifies this
      ensures Valid()
      ensures velocity == old(velocity) && isStopped == old(isStopped) && pendingRestores == old(pendingRestores)
      ensures |waypoints| == 0 ==> unchanged(this)
      ensures |waypoints| > 0 && distance > ArrivalThreshold ==>
        && currentWaypointIndex == old(currentWaypointIndex)
        && body.position == Vec3(old(body.position.x) + direction.x * velocity,
                                 old(body.position.y),
                                 old(body.position.z) + direction.z * velocity)
        && body.quaternion == turned
        && mesh == Pose(Vec3(body.position.x, body.position.y - MeshYOffset, body.position.z), body.quaternion)
      ensures |waypoints| > 0 && distance <= ArrivalThreshold ==>
        && currentWaypointIndex == NextWaypointIndex(old(currentWaypointIndex), |waypoints|)
        && body == old(body) && mesh == old(mesh)
    {
      if |waypoints| > 0 {
        if distance > ArrivalThreshold {
          var p := body.position;
          body := body.(position := p.(x := p.x + direction.x * velocity, z := p.z + direction.z * velocity));
          body := body.(quaternion := turned);
          mesh := Pose(body.position.(y := body.position.y - MeshYOffset), body.quaternion);
        } else {
          currentWaypointIndex := currentWaypointIndex + 1;
          if currentWaypointIndex >= |waypoints| {
            currentWaypointIndex := 0;
          }
        }
      }
    }
  }
}
