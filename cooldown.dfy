/** The per-(user, command) cooldown of the message-sending slash commands
    (index.cjs:110, 160-164): a map from key to the time (in milliseconds) until
    which the key is blocked. */
module Cooldown {
  import opened Text

  /** COOLDOWN_MS (index.cjs:16). */
  const COOLDOWN_MS: int := 100

  /** The key `${userId}-${command}`. */
  function CooldownKey(userId: string, command: string): string {
    userId + "-" + command
  }

  /** User ids are decimal snowflakes and so contain no '-': the key then
      determines both the user and the command, and every (user, command)
      pair has a cooldown of its own. */
  lemma CooldownKeyInjective(u1: string, c1: string, u2: string, c2: string)
    requires '-' !in u1 && '-' !in u2
    requires CooldownKey(u1, c1) == CooldownKey(u2, c2)
    ensures u1 == u2 && c1 == c2
  {
    var k := CooldownKey(u1, c1);
    IndexOfAfter(u1, '-', c1);
    IndexOfAfter(u2, '-', c2);
    assert u1 == k[..|u1|] && u2 == k[..|u2|];
    assert c1 == k[|u1| + 1..] && c2 == k[|u2| + 1..];
  }

  /** The guard `cooldowns.has(key) && now < cooldowns.get(key)`. */
  predicate OnCooldown(deadlines: map<string, int>, key: string, now: int) {
    key in deadlines && now < deadlines[key]
  }

  /** One use of a command: rejected while the key is blocked, otherwise
      admitted and the key blocked for COOLDOWN_MS more. */
  function Use(deadlines: map<string, int>, key: string, now: int): (r: (bool, map<string, int>))
    ensures r.0 <==> !(key in deadlines && now < deadlines[key])
    ensures !r.0 ==> r.1 == deadlines
    ensures r.0 ==> key in r.1 && r.1[key] == now + COOLDOWN_MS
    ensures r.1.Keys == deadlines.Keys + (if r.0 then {key} else {})
    ensures forall k :: k in deadlines && k != key ==> r.1[k] == deadlines[k]
  {
    if OnCooldown(deadlines, key, now) then (false, deadlines)
    else (true, deadlines[key := now + COOLDOWN_MS])
  }

  /** The cooldown map of the process. */
  class Cooldowns {
    var deadlines: map<string, int>

    constructor ()
      ensures deadlines == map[]
    {
      deadlines := map[];
    }

    /** The check at index.cjs:162 and the update at index.cjs:164. */
    method TryUse(key: string, now: int) returns (admitted: bool)
      modifies this
      ensures (admitted, deadlines) == Use(old(deadlines), key, now)
    {
      if key in deadlines && now < deadlines[key] {
        return false;
      }
      deadlines := deadlines[key := now + COOLDOWN_MS];
      admitted := true;
    }
  }

  // ---------------------------------------------------------------------------
  // Histories of uses

  datatype Attempt = Attempt(key: string, now: int)

  /** Which attempts of a history are admitted, starting from the given map. */
  function Admitted(deadlines: map<string, int>, attempts: seq<Attempt>): (r: seq<bool>)
    ensures |r| == |attempts|
    decreases |attempts|
  {
    if attempts == [] then []
    else
      var step := Use(deadlines, attempts[0].key, attempts[0].now);
      [step.0] + Admitted(step.1, attempts[1..])
  }

  /** Once a key is blocked until `bound`, no later attempt on that key earlier
      than `bound` is admitted: admitted uses only push the deadline further. */
  lemma {:induction false} AdmittedNotBefore(deadlines: map<string, int>, attempts: seq<Attempt>, j: nat, bound: int)
    requires j < |attempts|
    requires attempts[j].key in deadlines && deadlines[attempts[j].key] >= bound
    requires Admitted(deadlines, attempts)[j]
    ensures attempts[j].now >= bound
    decreases |attempts|
  {
    var key := attempts[j].key;
    var step := Use(deadlines, attempts[0].key, attempts[0].now);
    if j > 0 {
      assert Admitted(deadlines, attempts)[j] == Admitted(step.1, attempts[1..])[j - 1];
      AdmittedNotBefore(step.1, attempts[1..], j - 1, bound);
    }
  }

  /** Any two admitted uses of the same key are at least COOLDOWN_MS apart,
      whatever the history between them. */
  lemma {:induction false} AdmittedUsesSpaced(deadlines: map<string, int>, attempts: seq<Attempt>, i: nat, j: nat)
    requires i < j < |attempts|
    requires attempts[i].key == attempts[j].key
    requires Admitted(deadlines, attempts)[i] && Admitted(deadlines, attempts)[j]
    ensures attempts[j].now >= attempts[i].now + COOLDOWN_MS
    decreases |attempts|
  {
    var step := Use(deadlines, attempts[0].key, attempts[0].now);
    assert Admitted(deadlines, attempts)[j] == Admitted(step.1, attempts[1..])[j - 1];
    if i > 0 {
      assert Admitted(deadlines, attempts)[i] == Admitted(step.1, attempts[1..])[i - 1];
      AdmittedUsesSpaced(step.1, attempts[1..], i - 1, j - 1);
    } else {
      AdmittedNotBefore(step.1, attempts[1..], j - 1, attempts[0].now + COOLDOWN_MS);
    }
  }
}
