/** Fixed choices of the smaller DUT commands: the ports of `lium dut vnc`
    and the attributes `lium dut info` asks for when none are named. */
module Defaults {
  import opened Results
  import opened DutTypes

  type u16 = x: int | 0 <= x < 0x1_0000

  /** The VNC server port on the DUT, and the local port used when the
      user names none. */
  const VncRemotePort: u16 := 5900
  const VncDefaultLocalPort: u16 := 5900

  /** The port forwarding `lium dut vnc` starts: from a local port to the
      DUT's VNC port, for the `kmsvnc` service. */
  datatype Forwarding = Forwarding(remotePort: u16, localPort: u16, service: string)

  function VncForwarding(port: Option<u16>): (f: Forwarding)
    ensures f.remotePort == 5900 && f.service == "kmsvnc"
    ensures port.Some? ==> f.localPort == port.value
    ensures port.None? ==> f.localPort == 5900
  {
    var local := match port case Some(p) => p case None => VncDefaultLocalPort;
    Forwarding(VncRemotePort, local, "kmsvnc")
  }

  /** The attributes `lium dut info` reports when none are named. */
  const DefaultInfoKeys: seq<string> := ["timestamp", "dut_id", "hwid", "release", "model", "serial", "mac"]

  /** The keys to query: the ones named, or the default list. */
  function InfoKeys(keys: seq<string>): (r: seq<string>)
    ensures |r| > 0
    ensures keys != [] ==> r == keys
    ensures keys == [] ==> r == ["timestamp", "dut_id", "hwid", "release", "model", "serial", "mac"]
    ensures keys == [] ==> forall i, j :: 0 <= i < j < |r| ==> r[i] != r[j]
  {
    if |keys| == 0 then DefaultInfoKeys else keys
  }

  /** `lium dut info`: resolve the DUT, then fetch the chosen keys. */
  function RunDutInfo(dut: string, keys: seq<string>,
                      connect: string -> Result<SshInfo, string>,
                      fetchKeys: (SshInfo, seq<string>) -> Result<Attributes, string>): (r: Result<Attributes, DutError>)
    ensures r.Ok? <==> connect(dut).Ok? && fetchKeys(connect(dut).value, InfoKeys(keys)).Ok?
    ensures r.Ok? ==> r.value == fetchKeys(connect(dut).value, InfoKeys(keys)).value
    ensures connect(dut).Err? ==> r == Err(Remote(connect(dut).error))
    ensures connect(dut).Ok? && fetchKeys(connect(dut).value, InfoKeys(keys)).Err? ==>
      r == Err(Remote(fetchKeys(connect(dut).value, InfoKeys(keys)).error))
  {
    match connect(dut)
    case Err(e) => Err(Remote(e))
    case Ok(ssh) =>
      match fetchKeys(ssh, InfoKeys(keys))
      case Err(e) => Err(Remote(e))
      case Ok(info) => Ok(info)
  }
}
