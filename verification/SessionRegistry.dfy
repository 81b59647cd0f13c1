/**
  The bounded registry of delta sessions (distil/cachedelta.py, `get_session`): an ordered
  dictionary in which every request moves its key to the end and the front is evicted.
*/
module SessionRegistry {
  import CacheDelta

  const MAX_SESSIONS := 512

  predicate Distinct(s: seq<string>) {
    forall i, j :: 0 <= i < j < |s| ==> s[i] != s[j]
  }

  /** The first n keys with k left out. */
  function Without(s: seq<string>, n: nat, k: string): (r: seq<string>)
    requires n <= |s|
    ensures |r| <= n
    ensures forall x :: x in r <==> x in s[..n] && x != k
  {
    if n == 0 then []
    else
      var r := Without(s, n - 1, k);
      assert s[..n] == s[..n - 1] + [s[n - 1]];
      if s[n - 1] == k then r else r + [s[n - 1]]
  }

  lemma {:induction false} WithoutDistinct(s: seq<string>, n: nat, k: string)
    requires n <= |s| && Distinct(s)
    ensures Distinct(Without(s, n, k))
    ensures |Without(s, n, k)| == if k in s[..n] then n - 1 else n
    ensures k !in s[..n] ==> Without(s, n, k) == s[..n]
  {
    if n == 0 {
    } else {
      WithoutDistinct(s, n - 1, k);
      assert s[..n] == s[..n - 1] + [s[n - 1]];
      assert s[n - 1] !in s[..n - 1];
    }
  }

  /** The last MAX_SESSIONS keys. */
  function Trim(s: seq<string>): (r: seq<string>)
    ensures |r| <= MAX_SESSIONS
    ensures forall x :: x in r ==> x in s
  {
    if |s| > MAX_SESSIONS then s[|s| - MAX_SESSIONS..] else s
  }

  /** Contents of the registry: keys in dictionary order, and what each maps to. */
  datatype Registry<T> = Registry(order: seq<string>, sessions: map<string, T>)

  ghost predicate WellFormed<T>(r: Registry<T>) {
    Distinct(r.order) && |r.order| <= MAX_SESSIONS && forall k :: k in r.order <==> k in r.sessions
  }

  /** Most recently used last. */
  function MoveToEnd(order: seq<string>, k: string): seq<string> {
    Without(order, |order|, k) + [k]
  }

  /** The registry after a request for k that is answered with s. */
  function Touched<T>(r: Registry<T>, k: string, s: T): Registry<T> {
    var order, sessions := Trim(MoveToEnd(r.order, k)), r.sessions[k := s];
    Registry(order, map x | x in order && x in sessions :: sessions[x])
  }

  lemma MoveToEndDistinct(order: seq<string>, k: string)
    requires Distinct(order)
    ensures Distinct(MoveToEnd(order, k))
    ensures |MoveToEnd(order, k)| == if k in order then |order| else |order| + 1
  {
    WithoutDistinct(order, |order|, k);
    assert order[..|order|] == order;
  }

  lemma TouchedWellFormed<T>(r: Registry<T>, k: string, s: T)
    requires WellFormed(r)
    ensures WellFormed(Touched(r, k, s)) && k in Touched(r, k, s).sessions && Touched(r, k, s).sessions[k] == s
  {
    var moved := MoveToEnd(r.order, k);
    var order := Trim(moved);
    MoveToEndDistinct(r.order, k);
    assert order[|order| - 1] == moved[|moved| - 1] == k;
  }

  /** A request leaves every other surviving session as it was. */
  lemma TouchedAt<T>(r: Registry<T>, k: string, s: T, x: string)
    requires x in Touched(r, k, s).sessions
    ensures Touched(r, k, s).sessions[x] == if x == k then s else if x in r.sessions then r.sessions[x] else s
    ensures x == k || x in r.sessions
  {
  }

  /** Without its oldest key a registry still lists exactly its sessions, and is still what is left at
      the end of the whole. */
  lemma OldestDropped<T>(order: seq<string>, sessions: map<string, T>, whole: seq<string>)
    requires 0 < |order| <= |whole| && Distinct(whole) && order == whole[|whole| - |order|..]
    requires forall k :: k in order <==> k in sessions
    ensures order[1..] == whole[|whole| - |order| + 1..]
    ensures forall k :: k in order[1..] <==> k in sessions - {order[0]}
  {
    assert forall k :: k in order <==> k == order[0] || k in order[1..];
  }

  class Sessions {
    var order: seq<string>
    var sessions: map<string, CacheDelta.DeltaSession>

    ghost predicate Valid()
      reads this
    {
      WellFormed(State())
    }

    function State(): Registry<CacheDelta.DeltaSession>
      reads this
    {
      Registry(order, sessions)
    }

    constructor ()
      ensures Valid() && State() == Registry([], map[])
    {
      order, sessions := [], map[];
    }

    /** Drop the least recently used sessions beyond the limit. */
    method Evict()
      requires Distinct(order) && forall k :: k in order <==> k in sessions
      modifies this
      ensures order == Trim(old(order))
      ensures sessions == map x | x in Trim(old(order)) && x in old(sessions) :: old(sessions)[x]
    {
      ghost var whole, all := order, sessions;
      assert whole[0..] == whole;
      while |order| > MAX_SESSIONS
        invariant |order| <= |whole| && (|order| >= MAX_SESSIONS || order == whole)
        invariant order == whole[|whole| - |order|..]
        invariant forall k :: k in order <==> k in sessions
        invariant forall k :: k in sessions ==> k in all && sessions[k] == all[k]
      {
        OldestDropped(order, sessions, whole);
        sessions := sessions - {order[0]};
        order := order[1..];
      }
    }

    /** The session for key, created at the end of the order if it is missing. */
    method FindOrAdd(key: string) returns (s: CacheDelta.DeltaSession)
      modifies this
      ensures sessions == old(sessions)[key := s]
      ensures if key in old(sessions)
              then order == old(order) && s == old(sessions)[key]
              else order == old(order) + [key] && fresh(s) && s.prevMsgHashes == []
    {
      if key in sessions {
        s := sessions[key];
      } else {
        s := new CacheDelta.DeltaSession();
        sessions, order := sessions[key := s], order + [key];
      }
    }

    method GetSession(key: string) returns (s: CacheDelta.DeltaSession)
      requires Valid()
      modifies this
      ensures Valid()
      ensures State() == Touched(old(State()), key, s)
      ensures if key in old(sessions) then s == old(sessions)[key] else fresh(s) && s.prevMsgHashes == []
    {
      ghost var before := State();
      s := FindOrAdd(key);
      MoveTwice(before.order, key);
      MoveToEndDistinct(before.order, key);
      order := MoveToEnd(order, key);
      Evict();
      TouchedWellFormed(before, key, s);
      assert State() == Touched(before, key, s);
    }
  }

  /** Appending a new key and then moving it to the end is the same as moving it to the end. */
  lemma MoveTwice(s: seq<string>, k: string)
    requires Distinct(s)
    ensures k !in s ==> MoveToEnd(s + [k], k) == MoveToEnd(s, k)
  {
    if k !in s {
      WithoutDistinct(s, |s|, k);
      assert s[..|s|] == s;
      WithoutDistinct(s + [k], |s|, k);
      assert (s + [k])[..|s|] == s;
    }
  }
}
