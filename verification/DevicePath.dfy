/** The path that stands for a DRA device in Slurm (internal/dra/gres.go, encodeDevicePath and decodeDevicePath). */
module DevicePath {
  import opened Ordering

  datatype DeviceID = DeviceID(driver: string, pool: string, device: string)

  const PREFIX := "/dra/"

  predicate NoSlash(s: string) {
    forall i :: 0 <= i < |s| ==> s[i] != '/'
  }

  /** strings.IndexByte for a slash; -1 if there is none. */
  function FirstSlash(s: string): (k: int)
    ensures -1 <= k < |s| && (k == -1 <==> NoSlash(s))
    ensures k >= 0 ==> s[k] == '/' && NoSlash(s[..k])
  {
    if s == "" then -1
    else if s[0] == '/' then 0
    else
      var k := FirstSlash(s[1..]);
      assert forall i :: 0 <= i < |s[1..]| ==> s[1..][i] == s[i + 1];
      assert k >= 0 ==> s[..k + 1] == [s[0]] + s[1..][..k];
      if k < 0 then -1 else k + 1
  }

  /** strings.LastIndexByte for a slash. */
  function LastSlash(s: string): (k: int)
    ensures -1 <= k < |s| && (k == -1 <==> NoSlash(s))
    ensures k >= 0 ==> s[k] == '/' && NoSlash(s[k + 1..])
  {
    if s == "" then -1
    else if s[|s| - 1] == '/' then |s| - 1
    else
      var k := LastSlash(s[..|s| - 1]);
      assert k >= 0 ==> s[k + 1..] == s[..|s| - 1][k + 1..] + [s[|s| - 1]];
      k
  }

  function Joined(a: string, b: string): string {
    a + "/" + b
  }

  function Encode(d: DeviceID): Result<string, string> {
    if d.driver == "" || d.pool == "" || d.device == ""
    then Err("identity must contain a driver, pool, and device name")
    else Ok(PREFIX + Joined(d.driver, Joined(d.pool, d.device)))
  }

  /** What follows the driver splits at its last slash. */
  function DecodeRest(driver: string, rest: string): (r: Result<DeviceID, string>)
    ensures r.Ok? ==> r.value.driver == driver && driver != "" && NoSlash(r.value.device)
  {
    var last := LastSlash(rest);
    if driver == "" || last <= 0 || last == |rest| - 1 then Err("path must contain a driver, pool, and device name")
    else Ok(DeviceID(driver, rest[..last], rest[last + 1..]))
  }

  function DecodeIdentity(identity: string): (r: Result<DeviceID, string>)
    ensures r.Ok? ==> NoSlash(r.value.driver) && NoSlash(r.value.device)
  {
    var first := FirstSlash(identity);
    if first < 0 then Err("path must contain a driver, pool, and device name")
    else DecodeRest(identity[..first], identity[first + 1..])
  }

  function Decode(path: string): (r: Result<DeviceID, string>)
    ensures r.Ok? ==> NoSlash(r.value.driver) && NoSlash(r.value.device)
  {
    if PREFIX <= path then DecodeIdentity(path[|PREFIX|..]) else Err("path must start with /dra/")
  }

  lemma FirstUnique(s: string, k: nat)
    requires k < |s| && s[k] == '/' && NoSlash(s[..k])
    ensures FirstSlash(s) == k
  {
    var f := FirstSlash(s);
    assert f >= 0;
    assert forall i :: 0 <= i < k ==> s[..k][i] == s[i];
    assert forall i :: 0 <= i < f ==> s[..f][i] == s[i];
  }

  lemma LastUnique(s: string, k: nat)
    requires k < |s| && s[k] == '/' && NoSlash(s[k + 1..])
    ensures LastSlash(s) == k
  {
    var f := LastSlash(s);
    assert f >= 0;
    assert forall i :: k < i < |s| ==> s[k + 1..][i - k - 1] == s[i];
    assert forall i :: f < i < |s| ==> s[f + 1..][i - f - 1] == s[i];
  }

  lemma SplitJoined(a: string, b: string)
    ensures var s := Joined(a, b); |s| == |a| + 1 + |b| && s[|a|] == '/' && s[..|a|] == a && s[|a| + 1..] == b
  {
  }

  lemma JoinSplit(s: string, k: nat)
    requires k < |s| && s[k] == '/'
    ensures Joined(s[..k], s[k + 1..]) == s
  {
  }

  /** Decoding inverts encoding exactly when neither the driver nor the device name contains a slash; the pool may. */
  lemma DecodeEncode(d: DeviceID)
    requires d.driver != "" && d.pool != "" && d.device != ""
    ensures Decode(Encode(d).value) == Ok(d) <==> NoSlash(d.driver) && NoSlash(d.device)
  {
    if NoSlash(d.driver) && NoSlash(d.device) {
      var rest := Joined(d.pool, d.device);
      SplitJoined(d.driver, rest);
      FirstUnique(Joined(d.driver, rest), |d.driver|);
      SplitJoined(d.pool, d.device);
      LastUnique(rest, |d.pool|);
      assert DecodeRest(d.driver, rest) == Ok(d);
      assert (PREFIX + Joined(d.driver, rest))[|PREFIX|..] == Joined(d.driver, rest);
    }
  }

  lemma RestRoundTrip(driver: string, rest: string)
    requires DecodeRest(driver, rest).Ok?
    ensures var d := DecodeRest(driver, rest).value; d.driver == driver && Joined(d.pool, d.device) == rest
    ensures var d := DecodeRest(driver, rest).value; d.driver != "" && d.pool != "" && d.device != ""
  {
    JoinSplit(rest, LastSlash(rest));
  }

  lemma IdentityRoundTrip(identity: string)
    requires DecodeIdentity(identity).Ok?
    ensures var d := DecodeIdentity(identity).value; Encode(d) == Ok(PREFIX + identity)
  {
    var first := FirstSlash(identity);
    RestRoundTrip(identity[..first], identity[first + 1..]);
    JoinSplit(identity, first);
  }

  lemma PrefixSplit(path: string)
    requires PREFIX <= path
    ensures PREFIX + path[|PREFIX|..] == path
  {
  }

  /** A path that decodes is the encoding of what it decodes to. */
  lemma EncodeDecode(path: string)
    requires Decode(path).Ok?
    ensures Encode(Decode(path).value) == Ok(path)
  {
    PrefixSplit(path);
    IdentityRoundTrip(path[|PREFIX|..]);
  }

  /** A slash in the driver moves to the pool: the path of one device is read as another. */
  lemma SlashMoves()
    ensures Encode(DeviceID("a/b", "p", "d")) == Encode(DeviceID("a", "b/p", "d"))
    ensures Decode(Encode(DeviceID("a/b", "p", "d")).value) == Ok(DeviceID("a", "b/p", "d"))
  {
    var d, e := DeviceID("a/b", "p", "d"), DeviceID("a", "b/p", "d");
    assert Encode(d).value == PREFIX + "a/b/p/d" == Encode(e).value;
    DecodeEncode(e);
  }
}
