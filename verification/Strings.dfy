/** The std::string operations the configuration parser is built from. */
module Strings {
  /** Every character of s is one of the blanks. */
  predicate AllIn(s: string, blanks: set<char>) {
    forall i :: 0 <= i < |s| ==> s[i] in blanks
  }

  /** s neither starts nor ends with a blank. */
  predicate Tight(s: string, blanks: set<char>) {
    s == [] || (s[0] !in blanks && s[|s| - 1] !in blanks)
  }

  /** erase(0, find_first_not_of(blanks)) */
  function TrimLeft(s: string, blanks: set<char>): string {
    if s != [] && s[0] in blanks then TrimLeft(s[1..], blanks) else s
  }

  /** erase(find_last_not_of(blanks) + 1) */
  function TrimRight(s: string, blanks: set<char>): string {
    if s != [] && s[|s| - 1] in blanks then TrimRight(s[..|s| - 1], blanks) else s
  }

  function Trim(s: string, blanks: set<char>): string {
    TrimRight(TrimLeft(s, blanks), blanks)
  }

  lemma {:induction false} TrimLeftPadded(lead: string, s: string, blanks: set<char>)
    requires AllIn(lead, blanks) && (s == [] || s[0] !in blanks)
    ensures TrimLeft(lead + s, blanks) == s
  {
    if lead == [] {
      assert lead + s == s;
    } else {
      assert (lead + s)[1..] == lead[1..] + s;
      TrimLeftPadded(lead[1..], s, blanks);
    }
  }

  lemma {:induction false} TrimRightPadded(s: string, trail: string, blanks: set<char>)
    requires AllIn(trail, blanks) && (s == [] || s[|s| - 1] !in blanks)
    ensures TrimRight(s + trail, blanks) == s
  {
    if trail == [] {
      assert s + trail == s;
    } else {
      var n := |trail| - 1;
      assert (s + trail)[..|s + trail| - 1] == s + trail[..n];
      TrimRightPadded(s, trail[..n], blanks);
    }
  }

  /** Trimming removes exactly the surrounding blanks. */
  lemma TrimPadded(lead: string, s: string, trail: string, blanks: set<char>)
    requires AllIn(lead, blanks) && AllIn(trail, blanks) && Tight(s, blanks)
    ensures Trim(lead + s + trail, blanks) == s
  {
    if s == [] {
      assert lead + s + trail == (lead + trail) + s;
      TrimLeftPadded(lead + trail, s, blanks);
    } else {
      assert lead + s + trail == lead + (s + trail);
      TrimLeftPadded(lead, s + trail, blanks);
      TrimRightPadded(s, trail, blanks);
    }
  }

  lemma {:induction false} TrimLeftSplits(s: string, blanks: set<char>) returns (lead: string)
    ensures AllIn(lead, blanks) && s == lead + TrimLeft(s, blanks)
    ensures var t := TrimLeft(s, blanks); t == [] || t[0] !in blanks
  {
    if s != [] && s[0] in blanks {
      var rest := TrimLeftSplits(s[1..], blanks);
      lead := [s[0]] + rest;
    } else {
      lead := [];
    }
  }

  lemma {:induction false} TrimRightSplits(s: string, blanks: set<char>) returns (trail: string)
    ensures AllIn(trail, blanks) && s == TrimRight(s, blanks) + trail
    ensures var t := TrimRight(s, blanks); t == [] || t[|t| - 1] !in blanks
  {
    if s != [] && s[|s| - 1] in blanks {
      var rest := TrimRightSplits(s[..|s| - 1], blanks);
      trail := rest + [s[|s| - 1]];
    } else {
      trail := [];
    }
  }

  /** Every string is its trimmed part between blanks. With TrimPadded: Trim is characterised. */
  lemma TrimSplits(s: string, blanks: set<char>) returns (lead: string, trail: string)
    ensures AllIn(lead, blanks) && AllIn(trail, blanks) && Tight(Trim(s, blanks), blanks)
    ensures s == lead + Trim(s, blanks) + trail
  {
    lead := TrimLeftSplits(s, blanks);
    trail := TrimRightSplits(TrimLeft(s, blanks), blanks);
    var t := Trim(s, blanks);
    assert s == lead + (t + trail);
    if t != [] {
      assert TrimLeft(s, blanks)[0] == t[0];
    }
  }

  /** Index of the first c in s, or |s| when there is none (npos). */
  function Find(s: string, c: char): (i: nat)
    ensures i <= |s| && c !in s[..i] && (i < |s| ==> s[i] == c)
  {
    if s == [] || s[0] == c then 0
    else
      assert forall k :: 0 < k <= 1 + Find(s[1..], c) ==> s[..k] == [s[0]] + s[1..][..k - 1];
      1 + Find(s[1..], c)
  }

  lemma FindFirst(a: string, c: char, b: string)
    requires c !in a
    ensures Find(a + [c] + b, c) == |a|
  {
    var s := a + [c] + b;
    var i := Find(s, c);
    assert forall k :: 0 <= k < |a| ==> s[k] == a[k];
    assert i >= |a|;
    assert s[|a|] == c && forall k :: 0 <= k < i ==> s[k] in s[..i];
  }

  lemma FindNone(s: string, c: char)
    ensures Find(s, c) == |s| <==> c !in s
  {
    assert s[..|s|] == s;
  }
}
