/**
 Host names and lease keys of the CMS bridge (normalizeCMSHost and cmsLeaseKey in
 control/cms.go), with the splitting rules of Go's net.SplitHostPort.

 Lower-casing is that of ASCII letters.
 */
module CmsHosts {
  import opened Options
  import opened TextTrim

  predicate IsBracket(c: char) {
    c == '[' || c == ']'
  }

  function LowerChar(c: char): char {
    if 'A' <= c <= 'Z' then c - 'A' + 'a' else c
  }

  function Lower(s: string): string {
    seq(|s|, i requires 0 <= i < |s| => LowerChar(s[i]))
  }

  /** The first position of the character, or the length of the text. */
  function First(s: string, c: char): (i: nat)
    ensures i <= |s| && (i < |s| ==> s[i] == c) && c !in s[..i]
  {
    if s == "" || s[0] == c then 0 else assert s == [s[0]] + s[1..]; First(s[1..], c) + 1
  }

  lemma SuffixSplits(s: string, i: nat)
    requires i < |s|
    ensures s[i..] == s[..|s| - 1][i..] + [s[|s| - 1]]
  {
    var front, tail := s[..|s| - 1][i..], s[i..];
    forall k | 0 <= k < |front|
      ensures tail[k] == front[k]
    {
      assert tail[k] == s[i + k];
    }
  }

  /** The last position of the character, or the length of the text. */
  function Last(s: string, c: char): (i: nat)
    ensures i <= |s| && (i < |s| ==> s[i] == c && c !in s[i + 1..]) && (i == |s| <==> c !in s)
  {
    if s == "" then 0
    else if s[|s| - 1] == c then |s| - 1
    else
      var front := s[..|s| - 1];
      var i := Last(front, c);
      assert s == front + [s[|s| - 1]];
      if i == |front| then |s| else SuffixSplits(s, i + 1); i
  }

  /** net.SplitHostPort, up to the host it returns; None is its error. */
  function SplitHost(s: string): Option<string> {
    var colon := Last(s, ':');
    if colon == |s| then None
    else if s[0] == '[' then
      var end := First(s, ']');
      if end == |s| || end + 1 != colon || '[' in s[1..] || ']' in s[end + 1..] then None else Some(s[1..end])
    else if ':' in s[..colon] || '[' in s || ']' in s then None
    else Some(s[..colon])
  }

  /** normalizeCMSHost */
  function Normalized(host: string): string {
    var text := Lower(Trim(host, IsSpace));
    var split := SplitHost(text);
    Trim(if split.Some? then split.value else text, IsBracket)
  }

  /** cmsLeaseKey */
  function LeaseKey(ip: string, host: string): string {
    Lower(Trim(ip, IsSpace)) + "|" + Normalized(host)
  }

  // ---------------------------------------------------------- normalising twice

  /** The text begins or ends with a character that is dropped. */
  predicate Edged(s: string, drop: char -> bool) {
    s != "" && (drop(s[0]) || drop(s[|s| - 1]))
  }

  predicate Within(s: string, t: string) {
    |s| <= |t| && forall i :: 0 <= i < |s| ==> s[i] in t
  }

  lemma {:induction false} TrimLeftFacts(s: string, drop: char -> bool)
    ensures var r := TrimLeft(s, drop);
            && Within(r, s) && (r == "" || !drop(r[0]))
            && (if s != "" && drop(s[0]) then |r| < |s| else r == s)
            && (r != "" ==> r[|r| - 1] == s[|s| - 1])
  {
    if s != "" && drop(s[0]) {
      TrimLeftFacts(s[1..], drop);
      assert forall c :: c in s[1..] ==> c in s;
    }
  }

  lemma {:induction false} TrimRightFacts(s: string, drop: char -> bool)
    ensures var r := TrimRight(s, drop);
            && Within(r, s) && (r == "" || !drop(r[|r| - 1]))
            && (if s != "" && drop(s[|s| - 1]) then |r| < |s| else r == s)
            && (r != "" ==> r[0] == s[0])
  {
    if s != "" && drop(s[|s| - 1]) {
      TrimRightFacts(s[..|s| - 1], drop);
      assert forall c :: c in s[..|s| - 1] ==> c in s;
    }
  }

  /** A trimmed text has clean edges; it is shorter exactly when the edges were not. */
  lemma TrimFacts(s: string, drop: char -> bool)
    ensures var r := Trim(s, drop);
            Within(r, s) && !Edged(r, drop) && (if Edged(s, drop) then |r| < |s| else r == s)
  {
    TrimLeftFacts(s, drop);
    TrimRightFacts(TrimLeft(s, drop), drop);
  }

  lemma SplitIsShorter(s: string)
    requires SplitHost(s).Some?
    ensures |SplitHost(s).value| < |s| && Within(SplitHost(s).value, s)
  {
  }

  /** Exactly one colon, and no bracket. */
  predicate HostAndPort(s: string) {
    && '[' !in s && ']' !in s
    && exists i :: 0 <= i < |s| && s[i] == ':' && ':' !in s[..i] && ':' !in s[i + 1..]
  }

  lemma SplitsExactlyWhen(s: string)
    requires s == "" || s[0] != '['
    ensures SplitHost(s).Some? <==> HostAndPort(s)
  {
    var colon := Last(s, ':');
    if HostAndPort(s) {
      var i :| 0 <= i < |s| && s[i] == ':' && ':' !in s[..i] && ':' !in s[i + 1..];
      LastIs(s, ':', i);
    }
  }

  predicate Lowered(s: string) {
    forall i :: 0 <= i < |s| ==> LowerChar(s[i]) == s[i]
  }

  lemma LowerFacts(s: string)
    ensures |Lower(s)| == |s| && Lowered(Lower(s)) && (Lowered(s) ==> Lower(s) == s)
  {
  }

  lemma WithinIsLowered(s: string, t: string)
    requires Within(s, t) && Lowered(t)
    ensures Lowered(s)
  {
    forall i | 0 <= i < |s|
      ensures LowerChar(s[i]) == s[i]
    {
      assert s[i] in t;
    }
  }

  /** What a normalised host looks like: lower case, no bracket at either edge. */
  lemma NormalizedFacts(host: string)
    ensures var x := Normalized(host);
            Lowered(x) && !Edged(x, IsBracket) && |x| <= |Trim(host, IsSpace)|
    ensures SplitHost(Lower(Trim(host, IsSpace))).Some? ==> |Normalized(host)| < |Trim(host, IsSpace)|
  {
    hide Lower, SplitHost, Trim, IsSpace, IsBracket;
    var trimmed := Trim(host, IsSpace);
    var text := Lower(trimmed);
    LowerFacts(trimmed);
    var split := SplitHost(text);
    var inner := if split.Some? then split.value else text;
    if split.Some? {
      SplitIsShorter(text);
      WithinIsLowered(inner, text);
    }
    TrimFacts(inner, IsBracket);
    WithinIsLowered(Normalized(host), inner);
  }

  /** The normalised host is not changed by normalising it again. */
  predicate Settled(host: string) {
    var x := Normalized(host);
    !Edged(x, IsSpace) && !HostAndPort(x)
  }

  /**
   Normalising twice is the same as once exactly when the first result has no space at an edge and is not of
   the form host:port.
   */
  lemma NormalizedTwiceExactlyWhen(host: string)
    ensures Normalized(Normalized(host)) == Normalized(host) <==> Settled(host)
  {
    hide Lower, SplitHost, Trim, IsSpace, HostAndPort;
    var x := Normalized(host);
    NormalizedFacts(host);
    NormalizedFacts(x);
    TrimFacts(x, IsSpace);
    if !Edged(x, IsSpace) {
      LowerFacts(x);
      SplitsExactlyWhen(x);
      TrimFacts(x, IsBracket);
    }
  }

  lemma SamePrefix(a: string, b: string, c: string)
    ensures a + b == a + c <==> b == c
  {
    if a + b == a + c {
      assert b == (a + b)[|a|..] && c == (a + c)[|a|..];
    }
  }

  /** A grant files its lease under the host normalised twice; lookups normalise it once. */
  lemma KeysAgreeExactlyWhen(ip: string, host: string)
    ensures LeaseKey(ip, Normalized(host)) == LeaseKey(ip, host) <==> Settled(host)
  {
    hide Normalized, Lower, Trim, Settled;
    SamePrefix(Lower(Trim(ip, IsSpace)) + "|", Normalized(Normalized(host)), Normalized(host));
    NormalizedTwiceExactlyWhen(host);
  }

  /** A lower-case host with clean edges is normalised by splitting and dropping brackets alone. */
  lemma CleanHost(host: string)
    requires !Edged(host, IsSpace) && Lowered(host)
    ensures Normalized(host) == Trim(if SplitHost(host).Some? then SplitHost(host).value else host, IsBracket)
  {
    hide IsSpace, SplitHost, Trim, Lower, Edged;
    TrimFacts(host, IsSpace);
    LowerFacts(host);
  }

  predicate Free(s: string) {
    forall i :: 0 <= i < |s| ==> !IsSpace(s[i]) && !IsBracket(s[i])
  }

  lemma FreeIsNotEdged(s: string)
    requires Free(s)
    ensures !Edged(s, IsSpace) && !Edged(s, IsBracket) && '[' !in s && ']' !in s
  {
    hide IsSpace;
  }

  lemma LowerKeepsFree(s: string)
    requires Free(s)
    ensures Free(Lower(s))
  {
    forall i | 0 <= i < |s|
      ensures !IsSpace(Lower(s)[i]) && !IsBracket(Lower(s)[i])
    {
      assert !IsSpace(s[i]) && !IsBracket(s[i]);
    }
  }

  /** The text up to its only colon, or all of it when it has none or several. */
  lemma FreeSplits(s: string)
    requires Free(s)
    ensures var inner := if SplitHost(s).Some? then SplitHost(s).value else s;
            inner <= s && !HostAndPort(inner)
  {
    hide IsSpace;
    FreeIsNotEdged(s);
    SplitsExactlyWhen(s);
  }

  lemma PrefixIsFree(s: string, t: string)
    requires s <= t && Free(t)
    ensures Free(s)
  {
    hide IsSpace, IsBracket;
    assert forall i :: 0 <= i < |s| ==> s[i] == t[i];
  }

  /** A host written without brackets or spaces, with or without a port, is settled. */
  lemma UnbracketedHostsAreSettled(host: string)
    requires Free(host)
    ensures Settled(host)
  {
    hide IsSpace, IsBracket, Free, Edged, Trim, Lower, SplitHost, HostAndPort;
    FreeIsNotEdged(host);
    TrimFacts(host, IsSpace);
    var text := Lower(host);
    LowerKeepsFree(host);
    FreeSplits(text);
    var inner := if SplitHost(text).Some? then SplitHost(text).value else text;
    PrefixIsFree(inner, text);
    FreeIsNotEdged(inner);
    TrimFacts(inner, IsBracket);
  }

  /** A host without spaces and brackets is put into small letters and split. */
  lemma FreeHost(host: string)
    requires Free(host)
    ensures var text := Lower(host);
            Normalized(host) == Trim(if SplitHost(text).Some? then SplitHost(text).value else text, IsBracket)
  {
    hide IsSpace, IsBracket, Free, SplitHost, Trim, Lower;
    FreeIsNotEdged(host);
    TrimFacts(host, IsSpace);
  }

  lemma LowerKeepsColons(s: string)
    ensures ':' in Lower(s) <==> ':' in s
  {
    assert forall i :: 0 <= i < |s| ==> (Lower(s)[i] == ':' <==> s[i] == ':');
  }

  lemma NameIsSplit(name: string, port: string)
    requires Free(name) && Free(port) && ':' !in name && ':' !in port
    ensures Free(name + ":" + port) && SplitHost(name + ":" + port) == Some(name) && SplitHost(name) == None
  {
    hide IsSpace;
    var s := name + ":" + port;
    assert forall i :: 0 <= i < |s| ==>
        s[i] == if i < |name| then name[i] else if i == |name| then ':' else port[i - |name| - 1];
    assert Free(s) by { assert !IsSpace(':') by { ColonIsNoSpace(); } }
    FreeIsNotEdged(s);
    assert s[|name| + 1..] == port && s[..|name|] == name;
    LastIs(s, ':', |name|);
  }

  lemma ColonIsNoSpace()
    ensures !IsSpace(':')
  {
  }

  /** Letters become small, and a port is dropped. */
  lemma PortIsDropped(name: string, port: string)
    requires Free(name) && Free(port) && ':' !in name && ':' !in port
    ensures Normalized(name) == Lower(name) && Normalized(name + ":" + port) == Lower(name)
  {
    hide IsSpace, IsBracket, Free, Edged, Trim, SplitHost, Normalized;
    NameIsSplit(name, port);
    FreeHost(name);
    FreeHost(name + ":" + port);
    LowerKeepsFree(name);
    LowerKeepsFree(port);
    LowerKeepsColons(name);
    LowerKeepsColons(port);
    NameIsSplit(Lower(name), Lower(port));
    FreeIsNotEdged(Lower(name));
    TrimFacts(Lower(name), IsBracket);
    assert Lower(name + ":" + port) == Lower(name) + ":" + Lower(port);
  }

  /** Only the letters from A to Z change, each to its small form. */
  lemma LettersBecomeSmall(s: string, i: nat)
    requires i < |s|
    ensures |Lower(s)| == |s|
    ensures Lower(s)[i] == if 'A' <= s[i] <= 'Z' then (s[i] as int + 32) as char else s[i]
  {
    assert 'a' as int == 'A' as int + 32;
  }

  /** A bracketed host and port is one that is not. */
  lemma BracketedHostIsNotSettled()
    ensures Normalized("[a:80]") == "a:80" && Normalized("a:80") == "a" && !Settled("[a:80]")
  {
    hide SplitHost, Trim, Normalized, Settled;
    CleanHost("[a:80]");
    BracketsWithoutPort();
    CleanHost("a:80");
    NameWithPort();
    NormalizedTwiceExactlyWhen("[a:80]");
  }

  lemma BracketsWithoutPort()
    ensures SplitHost("[a:80]") == None && Trim("[a:80]", IsBracket) == "a:80"
  {
    hide IsSpace;
    LastIs("[a:80]", ':', 2);
    FirstIs("[a:80]", ']', 5);
    assert "[a:80]"[1..] == "a:80]";
    assert "a:80]"[..4] == "a:80";
    assert TrimLeft("a:80]", IsBracket) == "a:80]";
    assert TrimRight("a:80", IsBracket) == "a:80";
  }

  lemma NameWithPort()
    ensures SplitHost("a:80") == Some("a") && Trim("a", IsBracket) == "a"
  {
    hide IsSpace;
    LastIs("a:80", ':', 1);
    assert "a:80"[..1] == "a";
    TrimFacts("a", IsBracket);
  }

  lemma LastIs(s: string, c: char, i: nat)
    requires i < |s| && s[i] == c && c !in s[i + 1..]
    ensures Last(s, c) == i
  {
    assert c in s;
  }

  lemma FirstIs(s: string, c: char, i: nat)
    requires i < |s| && s[i] == c && c !in s[..i]
    ensures First(s, c) == i
  {
  }
}
