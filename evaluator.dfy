/**
 The network evaluator: the first-match search of the visible-network list
 for the target SSID, and the signal-quality gate applied to the match.
 */
module Evaluator {
  import opened WlanApi

  /**
   The run's constants: the target SSID, as the bytes of a C string literal
   (so it holds no zero byte), and the least acceptable signal quality.
   */
  datatype Config = Config(targetSsid: seq<byte>, minAcceptableSignalQuality: Dword) {
    predicate Valid() {
      forall b <- targetSsid :: b != 0
    }
  }

  /** The bytes of an ASCII text without NUL characters, as a C string literal stores them. */
  function AsciiBytes(s: string): (bytes: seq<byte>)
    requires forall i :: 0 <= i < |s| ==> 0 as char < s[i] < 128 as char
    ensures |bytes| == |s|
    ensures forall i :: 0 <= i < |s| ==> bytes[i] as int == s[i] as int
    ensures forall b <- bytes :: b != 0
  {
    if s == [] then [] else [s[0] as int as byte] + AsciiBytes(s[1..])
  }

  /** The configuration the program is built with. */
  const ProgramConfig: Config := Config(AsciiBytes("NETGEAR41-5G"), 75)

  lemma ProgramConfigValid()
    ensures ProgramConfig.Valid()
    ensures |ProgramConfig.targetSsid| == 12 && ProgramConfig.minAcceptableSignalQuality == 75
  {
  }

  /** Whether network `n` carries the target SSID: equal length and equal bytes. */
  predicate IsTarget(n: AvailableNetwork, target: seq<byte>)
    requires n.ssid.Valid()
  {
    SsidOf(n) == target
  }

  /**
   The first index in [from, bound) whose network carries the target SSID,
   or None when there is none.
   */
  function FirstMatch(networks: seq<AvailableNetwork>, target: seq<byte>, from: nat, bound: nat): (r: Option<nat>)
    requires from <= bound <= |networks| && forall n <- networks :: n.ssid.Valid()
    ensures r.None? <==> forall i :: from <= i < bound ==> !IsTarget(networks[i], target)
    ensures r.Some? ==> from <= r.value < bound && IsTarget(networks[r.value], target)
    ensures r.Some? ==> forall i :: from <= i < r.value ==> !IsTarget(networks[i], target)
    decreases bound - from
  {
    if from == bound then None
    else if IsTarget(networks[from], target) then Some(from)
    else FirstMatch(networks, target, from + 1, bound)
  }

  /** What the evaluation of the network list concludes; `index` names the matched record. */
  datatype Evaluation = NotFound | FoundButWeak(index: nat) | FoundAndStrong(index: nat)

  /**
   The search the program's loop makes, over the entries the loop visits,
   followed by the inclusive quality gate.
   */
  function Evaluate(cfg: Config, networks: seq<AvailableNetwork>): (e: Evaluation)
    requires ValidNetworkList(networks)
    ensures e.NotFound? <==> forall i :: 0 <= i < ScanBound(|networks|) ==> !IsTarget(networks[i], cfg.targetSsid)
    ensures !e.NotFound? ==> e.index < ScanBound(|networks|) && IsTarget(networks[e.index], cfg.targetSsid)
    ensures !e.NotFound? ==> forall i :: 0 <= i < e.index ==> !IsTarget(networks[i], cfg.targetSsid)
    ensures e.FoundButWeak? <==> !e.NotFound? && networks[e.index].signalQuality < cfg.minAcceptableSignalQuality
    ensures e.FoundAndStrong? <==> !e.NotFound? && networks[e.index].signalQuality >= cfg.minAcceptableSignalQuality
  {
    match FirstMatch(networks, cfg.targetSsid, 0, ScanBound(|networks|))
    case None => NotFound
    case Some(k) =>
      if networks[k].signalQuality < cfg.minAcceptableSignalQuality then FoundButWeak(k) else FoundAndStrong(k)
  }

  /**
   First match wins: once record k is the first match, nothing after it is
   looked at. Two lists that agree up to and including k evaluate alike,
   whatever duplicates of higher quality follow.
   */
  lemma FirstMatchIgnoresLater(
    networks: seq<AvailableNetwork>, other: seq<AvailableNetwork>, target: seq<byte>,
    from: nat, bound: nat, otherBound: nat, k: nat)
    requires from <= bound <= |networks| && forall n <- networks :: n.ssid.Valid()
    requires from <= otherBound <= |other| && forall n <- other :: n.ssid.Valid()
    requires FirstMatch(networks, target, from, bound) == Some(k)
    requires k < otherBound && other[..k + 1] == networks[..k + 1]
    ensures FirstMatch(other, target, from, otherBound) == Some(k)
  {
    forall i | from <= i <= k
      ensures other[i] == networks[i]
    {
      assert other[i] == other[..k + 1][i] == networks[..k + 1][i];
    }
  }

  /** FirstMatchIgnoresLater for the evaluation of whole lists. */
  lemma EvaluationIgnoresLater(cfg: Config, networks: seq<AvailableNetwork>, other: seq<AvailableNetwork>)
    requires ValidNetworkList(networks) && ValidNetworkList(other)
    requires !Evaluate(cfg, networks).NotFound?
    requires Evaluate(cfg, networks).index < ScanBound(|other|)
    requires other[..Evaluate(cfg, networks).index + 1] == networks[..Evaluate(cfg, networks).index + 1]
    ensures Evaluate(cfg, other) == Evaluate(cfg, networks)
  {
    var k := Evaluate(cfg, networks).index;
    FirstMatchIgnoresLater(networks, other, cfg.targetSsid, 0, ScanBound(|networks|), ScanBound(|other|), k);
    assert other[k] == other[..k + 1][k];
  }

  /**
   The gate is inclusive: a match whose quality equals the threshold is strong.
   */
  lemma GateIsInclusive(cfg: Config, networks: seq<AvailableNetwork>)
    requires ValidNetworkList(networks)
    requires !Evaluate(cfg, networks).NotFound?
    requires networks[Evaluate(cfg, networks).index].signalQuality == cfg.minAcceptableSignalQuality
    ensures Evaluate(cfg, networks).FoundAndStrong?
  {
  }

  /**
   The SSID is matched as decoded by its length field. Since the target is a
   C string, a network whose SSID holds a zero byte never matches it.
   */
  lemma EmbeddedZeroNeverMatches(cfg: Config, n: AvailableNetwork, i: nat)
    requires cfg.Valid() && n.ssid.Valid()
    requires i < n.ssid.length && n.ssid.buffer[i] == 0
    ensures !IsTarget(n, cfg.targetSsid)
  {
    assert SsidOf(n)[i] == 0 && SsidOf(n)[i] in SsidOf(n);
  }

  /**
   Decoding by a terminator, as reading the buffer as a C string would:
   the bytes before the first zero byte.
   */
  function TerminatedPrefix(buffer: seq<byte>): (s: seq<byte>)
    ensures |s| <= |buffer| && s == buffer[..|s|] && 0 !in s
    ensures |s| < |buffer| ==> buffer[|s|] == 0
  {
    if buffer == [] || buffer[0] == 0 then [] else [buffer[0]] + TerminatedPrefix(buffer[1..])
  }

  /**
   The length field, not a terminator, decides the SSID: whenever one of the
   first `length` bytes is zero, the decoded SSID keeps it and differs from
   what a terminator scan of the buffer would give.
   */
  lemma LengthNotTerminator(n: AvailableNetwork, i: nat)
    requires n.ssid.Valid() && i < n.ssid.length && n.ssid.buffer[i] == 0
    ensures 0 in SsidOf(n)
    ensures SsidOf(n) != TerminatedPrefix(n.ssid.buffer)
  {
    assert SsidOf(n)[i] == 0;
  }

  /**
   Matching is byte-exact: "netgear41-5g" does not match the program's target.
   */
  lemma MatchIsCaseExact(n: AvailableNetwork)
    requires n.ssid.Valid() && SsidOf(n) == AsciiBytes("netgear41-5g")
    ensures !IsTarget(n, ProgramConfig.targetSsid)
  {
    assert SsidOf(n)[0] as int == 'n' as int;
    assert ProgramConfig.targetSsid[0] as int == 'N' as int;
  }
}
