/** Values the DUT commands pass around. `SshInfo` and `DutInfo` belong to
    the `lium::dut` library, which is not part of this model: here they are
    plain records holding only what the commands read from them. */
module DutTypes {

  /** Named attributes of a DUT (`dut_id`, `hwid`, `release`, ...). */
  type Attributes = map<string, string>

  /** How to reach one DUT: host and SSH port. */
  datatype SshInfo = SshInfo(host: string, port: int)

  /** A resolved DUT: its identity, how it was reached, and its attributes. */
  datatype DutInfo = DutInfo(id: string, ssh: SshInfo, info: Attributes)

  /** The errors the commands return to their caller. */
  datatype DutError =
    | KeyNotReady(cause: string)          // the testing key could not be installed
    | UnknownAction(names: seq<string>)   // `dut do` with unknown names, or with none
    | MissingDut                          // `dut do` without `--dut`
    | ActionFailed(name: string, cause: string)
    | CacheNotInitialized                 // the DUT registry could not be read
    | Remote(cause: string)               // a connection, query or transfer failed
    | Io(cause: string)                   // a local file or standard input could not be read
}
