/** The name of the verification ticket channel opened by the "verify-start"
    button (index.cjs:183-185): the user name, prefixed, lower-cased, reduced
    to `[a-z0-9-]` and cut to 80 characters, then suffixed with `-1`, `-2`, ...
    until no channel of the server has that name. */
module TicketName {
  import opened Text

  /** The prefix `驗證-` ("verify-") written before the user name. */
  const TICKET_PREFIX: string := "\U{9A57}\U{8B49}-"

  /** `.slice(0, 80)`. */
  const MAX_BASE_LENGTH: nat := 80

  /** The characters the pattern `[^a-z0-9\-]` does not remove. */
  predicate ChannelChar(c: char) {
    'a' <= c <= 'z' || '0' <= c <= '9' || c == '-'
  }

  /** `.replace(/[^a-z0-9\-]/g, '')`: the allowed characters, in order. */
  function Sanitize(s: string): (r: string)
    ensures |r| <= |s|
    ensures forall i :: 0 <= i < |r| ==> ChannelChar(r[i])
  {
    if s == [] then []
    else (if ChannelChar(s[0]) then [s[0]] else []) + Sanitize(s[1..])
  }

  lemma {:induction false} SanitizeAppend(a: string, b: string)
    ensures Sanitize(a + b) == Sanitize(a) + Sanitize(b)
  {
    if a == [] {
      assert a + b == b;
    } else {
      assert (a + b)[1..] == a[1..] + b;
      SanitizeAppend(a[1..], b);
    }
  }

  /** Text made of allowed characters only is left as it is, so sanitising
      twice is sanitising once. */
  lemma {:induction false} SanitizeClean(s: string)
    requires forall i :: 0 <= i < |s| ==> ChannelChar(s[i])
    ensures Sanitize(s) == s
  {
    if s != [] {
      SanitizeClean(s[1..]);
    }
  }

  /** The `base` name for a user name. */
  function Base(username: string): (base: string)
    ensures |base| <= MAX_BASE_LENGTH
    ensures forall i :: 0 <= i < |base| ==> ChannelChar(base[i])
  {
    var clean := Sanitize(Lower(TICKET_PREFIX + username));
    if |clean| <= MAX_BASE_LENGTH then clean else clean[..MAX_BASE_LENGTH]
  }

  /** The CJK part of the prefix is itself removed by the sanitiser, so every
      base is '-' followed by the sanitised, lower-cased user name (cut to 79
      characters): it always starts with '-'. */
  lemma BaseOfUsername(username: string)
    ensures var tail := Sanitize(Lower(username));
      Base(username) == if |tail| < MAX_BASE_LENGTH then "-" + tail else ("-" + tail)[..MAX_BASE_LENGTH]
    ensures |Base(username)| >= 1 && Base(username)[0] == '-'
  {
    LowerAppend(TICKET_PREFIX, username);
    SanitizeAppend(Lower(TICKET_PREFIX), Lower(username));
    assert Lower(TICKET_PREFIX) == TICKET_PREFIX;
    assert Sanitize(TICKET_PREFIX) == "-";
  }

  /** The k-th name tried: the base itself, then `${base}-${k}`. */
  function Candidate(base: string, k: nat): string {
    if k == 0 then base else base + "-" + Decimal(k)
  }

  /** Different attempts try different names, so the search makes progress. */
  lemma CandidateInjective(base: string, j: nat, k: nat)
    requires j != k
    ensures Candidate(base, j) != Candidate(base, k)
  {
    if j != 0 && k != 0 && Candidate(base, j) == Candidate(base, k) {
      var n := |base| + 1;
      assert Decimal(j) == Candidate(base, j)[n..];
      assert Decimal(k) == Candidate(base, k)[n..];
      DecimalInjective(j, k);
    }
  }

  /** The names tried before the k-th. */
  function TriedBefore(base: string, k: nat): set<string> {
    set j | 0 <= j < k :: Candidate(base, j)
  }

  lemma {:induction false} TriedBeforeSize(base: string, k: nat)
    ensures |TriedBefore(base, k)| == k
  {
    if k > 0 {
      TriedBeforeSize(base, k - 1);
      assert TriedBefore(base, k) == TriedBefore(base, k - 1) + {Candidate(base, k - 1)};
      forall j | 0 <= j < k - 1
        ensures Candidate(base, j) != Candidate(base, k - 1)
      {
        CandidateInjective(base, j, k - 1);
      }
    }
  }

  lemma {:induction false} SubsetSize<T>(a: set<T>, b: set<T>)
    requires a <= b
    ensures |a| <= |b|
  {
    if a != {} {
      var x :| x in a;
      SubsetSize(a - {x}, b - {x});
    }
  }

  /** The channel name chosen for a user, given the names of the server's
      channels: free, and the first free one in the order base, base-1,
      base-2, ... The search ends for every finite set of names, after at
      most as many steps as there are names. */
  method TicketChannelName(username: string, existing: set<string>) returns (name: string)
    ensures name !in existing
    ensures exists k: nat :: (k <= |existing| && name == Candidate(Base(username), k)
      && forall j: nat :: j < k ==> Candidate(Base(username), j) in existing)
  {
    var base := Base(username);
    name := base;
    var i := 1;
    while name in existing
      invariant i >= 1
      invariant name == Candidate(base, i - 1)
      invariant TriedBefore(base, i - 1) <= existing
      invariant i - 1 <= |existing|
      decreases |existing| - (i - 1)
    {
      TriedBeforeSize(base, i);
      assert TriedBefore(base, i) == TriedBefore(base, i - 1) + {name};
      SubsetSize(TriedBefore(base, i), existing);
      name := base + "-" + Decimal(i);
      i := i + 1;
    }
    assert forall j: nat :: j < i - 1 ==> Candidate(base, j) in TriedBefore(base, i - 1);
    assert name == Candidate(base, i - 1);
  }
}
