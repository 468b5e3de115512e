/** Time and chance, as the program meets them. */
module Environment {

  /** Nothing is known of the environment except that the clock is monotone, a sleep lasts at
      least its delay, and random numbers lie in [0, 1). `slept` is the total of all delays. */
  class World {
    var now: real
    ghost var slept: real

    method Clock() returns (t: real)
      modifies this
      ensures t == now >= old(now)
      ensures slept == old(slept)
    {
      var passed: real := *;
      if passed > 0.0 {
        now := now + passed;
      }
      t := now;
    }

    method Sleep(delay: real)
      modifies this
      ensures now >= old(now) + delay
      ensures slept == old(slept) + delay
    {
      var extra: real := *;
      now := now + delay + (if extra > 0.0 then extra else 0.0);
      slept := slept + delay;
    }

    method Random() returns (r: real)
      ensures 0.0 <= r < 1.0
    {
      r := *;
      if r < 0.0 || r >= 1.0 {
        r := 0.0;
      }
    }
  }
}
