/** The records that every other module shares (src/data.h, src/governor_config.h). */
module Data {
  const USERNAMEMAXLEN := 64
  const BAD_LVE := 3

  /** What a username_t buffer can hold: at most 63 characters, none of them NUL. */
  predicate IsName(s: string) {
    |s| < USERNAMEMAXLEN && '\0' !in s
  }

  type Name = s: string | IsName(s) witness ""

  datatype Option<+T> = None | Some(value: T)

  /** One sample, or one average, of what a user or an account consumed. */
  datatype Stats = Stats(cpu: real, read: int, write: int) {
    function Plus(s: Stats): Stats {
      Stats(cpu + s.cpu, read + s.read, write + s.write)
    }

    predicate NonNegative() {
      0.0 <= cpu && 0 <= read && 0 <= write
    }
  }

  const ZERO_STATS := Stats(0.0, 0, 0)

  /** The sum of a sequence of samples. */
  function Sum(s: seq<Stats>): Stats {
    if s == [] then ZERO_STATS else s[0].Plus(Sum(s[1..]))
  }

  lemma {:induction false} SumConcat(s: seq<Stats>, t: seq<Stats>)
    ensures Sum(s + t) == Sum(s).Plus(Sum(t))
  {
    if s == [] {
      assert s + t == t;
    } else {
      assert (s + t)[1..] == s[1..] + t;
      SumConcat(s[1..], t);
    }
  }

  /** The fields of governor_config that the modelled code reads. */
  datatype Config = Config(
    useLve: bool, allLve: bool, isGpl: bool, separateLve: bool,
    restrictMode: bool,
    level1: nat, level2: nat, level3: nat, level4: nat,
    timeout: nat, lUnlimit: nat,
    intervalShort: nat, intervalMid: nat, intervalLong: nat)
  {
    /** Throttling is switched on, and per user: the setting under which restrictions exist. */
    predicate Throttling() {
      useLve && !allLve && !isGpl
    }
  }

  datatype Kind = FREEZE | UNFREEZE

  datatype Command = Command(username: Name, kind: Kind)
}
