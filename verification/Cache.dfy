/** The read cache of the user directory (lib/cache/cache.go, directory/directory.go). */
module Cache {
  import opened Base

  /** The creation time of a cache that holds nothing: some time long in the past. */
  const EPOCH: Time := 519_850_800_000 * 1_000_000

  predicate StillValid(creation: Time, ttl: int, now: Time) {
    now < creation + ttl
  }

  datatype Result<+T> = Ok(value: T) | Err

  /** One cache, used by one caller at a time. The clock readings and the refresher's answer are inputs;
      `zero` is the language's zero value of T. */
  class InMemory<T> {
    var data: T
    var time: Time
    const ttl: int
    const zero: T

    /** It holds nothing: the zero value, from long ago. */
    ghost predicate Empty()
      reads this
    {
      data == zero && time == EPOCH
    }

    predicate IsFresh(now: Time)
      reads this
    {
      StillValid(time, ttl, now)
    }

    constructor (ttl: int, zero: T)
      ensures this.ttl == ttl && this.zero == zero && Empty()
    {
      this.ttl, this.zero := ttl, zero;
      data, time := zero, EPOCH;
    }

    method Invalidate()
      modifies this
      ensures Empty()
    {
      data, time := zero, EPOCH;
    }

    /** `maybeRefreshAndGet`: serve what is stored if it is fresh at either check, and fetch otherwise.
        A failed fetch leaves the cache as it was. */
    method Get(firstCheck: Time, secondCheck: Time, fetch: Result<T>, stored: Time) returns (r: Result<T>)
      modifies this
      ensures r == if old(IsFresh(firstCheck)) || old(IsFresh(secondCheck)) then Ok(old(data)) else fetch
      ensures old(IsFresh(firstCheck)) || old(IsFresh(secondCheck)) || fetch.Err? ==>
                data == old(data) && time == old(time)
      ensures !old(IsFresh(firstCheck)) && !old(IsFresh(secondCheck)) && fetch.Ok? ==>
                data == fetch.value && time == stored
    {
      if StillValid(time, ttl, firstCheck) {
        return Ok(data);
      }
      if StillValid(time, ttl, secondCheck) {
        return Ok(data);
      }
      if fetch.Err? {
        return Err;
      }
      data, time := fetch.value, stored;
      r := Ok(fetch.value);
    }
  }

  function Both<P, T>(p: Result<P>, t: Result<T>): Result<(P, T)> {
    if p.Ok? && t.Ok? then Ok((p.value, t.value)) else Err
  }

  /** The directory's three caches. */
  class UserStore<U, P, T> {
    const users: InMemory<U>
    const positions: InMemory<P>
    const teams: InMemory<T>

    /** The caches are three objects, even where they hold the same type. */
    predicate Valid() {
      (users as object) != positions && (users as object) != teams && (positions as object) != teams
    }

    constructor (ttl: int, noUsers: U, noPositions: P, noTeams: T)
      ensures Valid() && fresh(users) && fresh(positions) && fresh(teams)
      ensures users.ttl == positions.ttl == teams.ttl == ttl
      ensures users.Empty() && positions.Empty() && teams.Empty()
    {
      users := new InMemory(ttl, noUsers);
      positions := new InMemory(ttl, noPositions);
      teams := new InMemory(ttl, noTeams);
    }

    /** After a Flush, used by one caller at a time, no cache serves what it held. */
    method Flush()
      requires Valid()
      modifies users, positions, teams
      ensures users.Empty() && positions.Empty() && teams.Empty()
    {
      users.Invalidate();
      positions.Invalidate();
      teams.Invalidate();
    }

    /** Both answers, each from its cache if that is fresh and fetched if not; a failure if either fetch
        failed. The teams are asked for, and stored, even if the positions failed. */
    method GetPositionsAndTeams(now: Time, fetchedP: Result<P>, fetchedT: Result<T>) returns (r: Result<(P, T)>)
      requires Valid()
      modifies positions, teams
      ensures r == Both(if old(positions.IsFresh(now)) then Ok(old(positions.data)) else fetchedP,
                        if old(teams.IsFresh(now)) then Ok(old(teams.data)) else fetchedT)
      ensures !old(positions.IsFresh(now)) && fetchedP.Ok? ==> positions.data == fetchedP.value && positions.time == now
      ensures !old(teams.IsFresh(now)) && fetchedT.Ok? ==> teams.data == fetchedT.value && teams.time == now
      ensures old(positions.IsFresh(now)) || fetchedP.Err? ==>
                positions.data == old(positions.data) && positions.time == old(positions.time)
      ensures old(teams.IsFresh(now)) || fetchedT.Err? ==>
                teams.data == old(teams.data) && teams.time == old(teams.time)
    {
      var p := positions.Get(now, now, fetchedP, now);
      var t := teams.Get(now, now, fetchedT, now);
      if p.Err? || t.Err? {
        return Err;
      }
      r := Ok((p.value, t.value));
    }
  }
}
