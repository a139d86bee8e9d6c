/** RakPeer's list of banned addresses, with wildcards and expiry. */
module BanList {
  import opened Sequences

  /** `BanStruct`; `timeout` is 0 for a permanent ban. Times are 32-bit milliseconds. */
  datatype Ban = Ban(ip: string, timeout: nat)

  const TIME_RANGE: nat := 0x1_0000_0000

  /** A C string: no NUL inside. */
  ghost predicate CString(s: string) { forall i :: 0 <= i < |s| ==> s[i] != '\0' }

  /** The character at `i`, the terminator behind the last. */
  function At(s: string, i: nat): char {
    if i < |s| then s[i] else '\0'
  }

  /** The check every ban function starts with. */
  predicate Acceptable(ip: Option<string>) {
    ip.Some? && 1 <= |ip.value| <= 15
  }

  predicate Expired(b: Ban, time: nat) { 0 < b.timeout < time }

  /** The first `k` characters agree. */
  ghost predicate Alike(pattern: string, ip: string, k: int) {
    k <= |pattern| && k <= |ip| && forall j :: 0 <= j < k ==> pattern[j] == ip[j]
  }

  /** The wildcard rule: equal, or a `*` where the two first differ and neither has ended. */
  ghost predicate Matches(pattern: string, ip: string) {
    pattern == ip
    || exists k :: 0 <= k < |pattern| && k < |ip| && Alike(pattern, ip, k) && pattern[k] == '*' && ip[k] != '*'
  }

  /** `IsBanned` as its callers understand it. */
  ghost predicate Banned(list: seq<Ban>, ip: Option<string>, time: nat) {
    Acceptable(ip) && exists b :: b in list && !Expired(b, time) && Matches(b.ip, ip.value)
  }

  ghost predicate ListOk(list: seq<Ban>) {
    && (forall i :: 0 <= i < |list| ==> CString(list[i].ip) && 1 <= |list[i].ip| <= 15)
    && (forall i, j :: 0 <= i < j < |list| ==> list[i].ip != list[j].ip)
  }

  /** `list` keeps every ban of `before` that has not expired and adds none. */
  ghost predicate OnlyExpiredLeft(before: seq<Ban>, list: seq<Ban>, time: nat) {
    && multiset(list) <= multiset(before)
    && forall b :: !Expired(b, time) ==> multiset(list)[b] == multiset(before)[b]
  }

  lemma SwapRemoveMultiset(list: seq<Ban>, k: nat)
    requires k < |list|
    ensures multiset(SwapRemove(list, k)) == multiset(list) - multiset{list[k]}
  {
    var n := |list| - 1;
    if k == n {
      assert list == list[..n] + [list[n]];
    } else {
      assert list == list[..k] + [list[k]] + list[k + 1..n] + [list[n]];
      assert SwapRemove(list, k) == list[..k] + [list[n]] + list[k + 1..n];
    }
  }

  lemma DropExpired(before: seq<Ban>, list: seq<Ban>, k: nat, time: nat)
    requires OnlyExpiredLeft(before, list, time) && k < |list| && Expired(list[k], time)
    ensures OnlyExpiredLeft(before, SwapRemove(list, k), time)
  {
    SwapRemoveMultiset(list, k);
  }

  lemma SwapRemoveKeeps(list: seq<Ban>, k: nat)
    requires k < |list| && ListOk(list)
    ensures ListOk(SwapRemove(list, k))
    ensures forall b :: b in SwapRemove(list, k) <==> b in list && b.ip != list[k].ip
  {
    var r := SwapRemove(list, k);
    forall b | b in list && b.ip != list[k].ip ensures b in r {
      var i :| 0 <= i < |list| && list[i] == b;
      assert r[if i == |list| - 1 then k else i] == b;
    }
  }

  class Bans {
    var banList: seq<Ban>

    ghost predicate Valid()
      reads this
    {
      ListOk(banList)
    }

    constructor ()
      ensures Valid() && banList == []
    {
      banList := [];
    }

    /** The character loop of `IsBanned`. */
    static method MatchesPattern(pattern: string, ip: string) returns (matched: bool)
      requires CString(pattern) && CString(ip)
      ensures matched <==> Matches(pattern, ip)
    {
      var characterIndex := 0;
      while true
        invariant 0 <= characterIndex && Alike(pattern, ip, characterIndex)
        decreases |ip| - characterIndex
      {
        if At(pattern, characterIndex) == At(ip, characterIndex) {
          if characterIndex == |ip| {
            assert pattern == ip;
            return true;
          }
          assert characterIndex < |pattern|;
          characterIndex := characterIndex + 1;
        } else {
          FirstDifference(pattern, ip, characterIndex);
          if characterIndex == |pattern| || characterIndex == |ip| {
            return false;
          }
          return pattern[characterIndex] == '*';
        }
      }
    }

    /** Drops the expired bans it comes across; a true answer ends the scan. */
    method IsBanned(ip: Option<string>, time: nat) returns (banned: bool)
      requires Valid() && (ip.Some? ==> CString(ip.value))
      modifies this
      ensures Valid()
      ensures banned <==> Banned(old(banList), ip, time)
      ensures OnlyExpiredLeft(old(banList), banList, time)
      ensures ip.Some? && 1 <= |ip.value| <= 15 && !banned ==> forall b :: b in banList ==> !(0 < b.timeout < time)
      ensures ip.None? || |ip.value| == 0 || |ip.value| > 15 ==> !banned && banList == old(banList)
    {
      if !Acceptable(ip) || |banList| == 0 {
        return false;
      }
      assert OnlyExpiredLeft(banList, banList, time);
      hide OnlyExpiredLeft, SwapRemove, Matches, ListOk;
      var banListIndex := 0;
      while banListIndex < |banList|
        invariant banListIndex <= |banList| && Valid()
        invariant OnlyExpiredLeft(old(banList), banList, time)
        invariant forall k :: 0 <= k < banListIndex ==>
          !Expired(banList[k], time) && !Matches(banList[k].ip, ip.value)
        decreases |banList| - banListIndex
      {
        if Expired(banList[banListIndex], time) {
          DropExpired(old(banList), banList, banListIndex, time);
          SwapRemoveKeeps(banList, banListIndex);
          banList := SwapRemove(banList, banListIndex);
        } else {
          var matched := MatchesPattern(banList[banListIndex].ip, ip.value);
          if matched {
            StillListed(old(banList), banList, time);
            assert banList[banListIndex] in banList;
            return true;
          }
          banListIndex := banListIndex + 1;
        }
      }
      StillListed(old(banList), banList, time);
      banned := false;
    }

    method AddToBanList(ip: Option<string>, milliseconds: nat, time: nat)
      requires Valid() && (ip.Some? ==> CString(ip.value))
      modifies this
      ensures Valid()
      ensures banList == Added(old(banList), ip, milliseconds, time)
      ensures ip.None? || |ip.value| == 0 || |ip.value| > 15 ==> banList == old(banList)
    {
      if !Acceptable(ip) {
        return;
      }
      var timeout := Timeout(milliseconds, time);
      var index := 0;
      while index < |banList| && banList[index].ip != ip.value
        invariant index <= |banList|
        invariant forall k :: 0 <= k < index ==> banList[k].ip != ip.value
      {
        index := index + 1;
      }
      assert index == Find(banList, ip.value);
      banList := if index < |banList| then banList[index := Ban(ip.value, timeout)]
                 else banList + [Ban(ip.value, timeout)];
    }

    method RemoveFromBanList(ip: Option<string>)
      requires Valid()
      modifies this
      ensures Valid()
      ensures ip.None? || |ip.value| == 0 || |ip.value| > 15 ==> banList == old(banList)
      ensures ip.Some? && 1 <= |ip.value| <= 15 ==> forall b :: b in banList <==> b in old(banList) && b.ip != ip.value
    {
      if !Acceptable(ip) {
        return;
      }
      var index := 0;
      while index < |banList| && banList[index].ip != ip.value
        invariant index <= |banList|
        invariant forall k :: 0 <= k < index ==> banList[k].ip != ip.value
      {
        index := index + 1;
      }
      if index < |banList| {
        SwapRemoveKeeps(banList, index);
        banList := SwapRemove(banList, index);
      }
    }
  }

  /** Where the two strings first differ decides the match. */
  lemma FirstDifference(pattern: string, ip: string, i: nat)
    requires Alike(pattern, ip, i) && At(pattern, i) != At(ip, i)
    requires CString(pattern) && CString(ip)
    ensures Matches(pattern, ip) <==> i < |pattern| && i < |ip| && pattern[i] == '*'
  {
    assert i < |pattern| && i < |ip| && pattern[i] == '*' ==> Alike(pattern, ip, i) && ip[i] != '*';
  }

  /**
   Without a wildcard a pattern matches itself only; a wildcard stands for one or more characters,
   and what follows it is ignored.
   */
  lemma WildcardsCoverPrefixes(p: string, rest: string, ip: string)
    requires '*' !in p && '*' !in ip
    ensures Matches(p, ip) <==> p == ip
    ensures Matches(p + "*" + rest, ip) <==> |p| < |ip| && ip[..|p|] == p
  {
    var pattern := p + "*" + rest;
    assert forall j :: 0 <= j < |p| ==> p[j] in p;
    assert forall j :: 0 <= j < |ip| ==> ip[j] in ip;
    assert pattern[|p|] == '*' && forall j :: 0 <= j < |p| ==> pattern[j] == p[j] != '*';
    if |p| < |ip| && ip[..|p|] == p {
      assert forall j :: 0 <= j < |p| ==> ip[..|p|][j] == ip[j];
      assert Alike(pattern, ip, |p|);
    }
    forall k | 0 <= k < |pattern| && k < |ip| && Alike(pattern, ip, k) && pattern[k] == '*'
      ensures k == |p| && ip[..|p|] == p
    {}
  }

  lemma StillListed(before: seq<Ban>, list: seq<Ban>, time: nat)
    requires OnlyExpiredLeft(before, list, time)
    ensures forall b :: b in list ==> b in before
    ensures forall b :: b in before && !Expired(b, time) ==> b in list
  {
    forall b | b in list ensures b in before {
      assert multiset(list)[b] > 0;
    }
    forall b | b in before && !Expired(b, time) ensures b in list {
      assert multiset(before)[b] > 0;
    }
  }

  // ---- adding a ban ----

  function Find(list: seq<Ban>, ip: string): (k: nat)
    ensures k <= |list|
    ensures k < |list| ==> list[k].ip == ip
    ensures forall j :: 0 <= j < k ==> list[j].ip != ip
  {
    if list == [] then 0 else if list[0].ip == ip then 0 else 1 + Find(list[1..], ip)
  }

  /** 0 is for ever, and so is a sum that wraps around to 0. */
  function Timeout(milliseconds: nat, time: nat): nat {
    if milliseconds == 0 then 0 else (time + milliseconds) % TIME_RANGE
  }

  function Added(list: seq<Ban>, ip: Option<string>, milliseconds: nat, time: nat): seq<Ban> {
    if !Acceptable(ip) then list
    else
      var b := Ban(ip.value, Timeout(milliseconds, time));
      var k := Find(list, ip.value);
      if k < |list| then list[k := b] else list + [b]
  }

  /**
   After a ban is added, an address is banned exactly if the new ban still runs and matches it, or
   another ban does. An older ban of the same string no longer counts.
   */
  lemma AddedIsEffective(list: seq<Ban>, ip: string, milliseconds: nat, time: nat, other: string, now: nat)
    requires ListOk(list) && 1 <= |ip| <= 15 && 1 <= |other| <= 15
    ensures Banned(Added(list, Some(ip), milliseconds, time), Some(other), now) <==>
      (Matches(ip, other) && !Expired(Ban(ip, Timeout(milliseconds, time)), now))
      || exists b :: b in list && b.ip != ip && !Expired(b, now) && Matches(b.ip, other)
  {
    var b := Ban(ip, Timeout(milliseconds, time));
    var k := Find(list, ip);
    var added := Added(list, Some(ip), milliseconds, time);
    assert added[k] == b;
    forall c | c in added ensures c == b || (c in list && c.ip != ip) {
      var i :| 0 <= i < |added| && added[i] == c;
      if i != k { assert added[i] == list[i]; }
    }
    forall c | c in list && c.ip != ip ensures c in added {
      var i :| 0 <= i < |list| && list[i] == c;
      assert added[i] == c;
    }
  }

  /** Until the clock itself wraps, a ban expires when it was asked to. */
  ghost predicate LastsAsAsked(ip: string, milliseconds: nat, time: nat) {
    forall now: nat :: time <= now < TIME_RANGE ==>
      (Expired(Ban(ip, Timeout(milliseconds, time)), now) <==> 0 < milliseconds && time + milliseconds < now)
  }

  /** It does so exactly when its end does not wrap past 0; otherwise it has expired at once. */
  lemma EndsAsAsked(ip: string, milliseconds: nat, time: nat)
    requires time < TIME_RANGE && milliseconds < TIME_RANGE
    ensures LastsAsAsked(ip, milliseconds, time) <==> milliseconds == 0 || time + milliseconds <= TIME_RANGE
    ensures !LastsAsAsked(ip, milliseconds, time) ==> Expired(Ban(ip, Timeout(milliseconds, time)), time)
  {
    var end := time + milliseconds;
    assert end < TIME_RANGE ==> end % TIME_RANGE == end;
    assert TIME_RANGE <= end ==> end % TIME_RANGE == end - TIME_RANGE;
    if milliseconds > 0 && end > TIME_RANGE {
      assert Expired(Ban(ip, Timeout(milliseconds, time)), time);
    }
  }

  /** A ban is permanent exactly when it was asked to be or its end wraps to 0. */
  lemma PermanentBans(ip: string, milliseconds: nat, time: nat)
    requires time < TIME_RANGE && milliseconds < TIME_RANGE
    ensures (forall now: nat :: !Expired(Ban(ip, Timeout(milliseconds, time)), now)) <==>
      milliseconds == 0 || time + milliseconds == TIME_RANGE
  {
    var b := Ban(ip, Timeout(milliseconds, time));
    if !(milliseconds == 0 || time + milliseconds == TIME_RANGE) {
      assert b.timeout > 0;
      assert Expired(b, b.timeout + 1);
    }
  }
}
