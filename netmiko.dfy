/**
 * The SSH session library the driver talks through, reduced to what the
 * driver observes of it: the commands it sends, in order, and the text
 * each one returns.
 */
module Netmiko {
  import opened Wrappers

  /** The command `enable()` issues to enter privileged mode. */
  const EnableCommand := "enable"

  /**
   * What the appliance behind an address does: the output it prints for a
   * command, given every command sent on the session before it, and what
   * the library's file-system probe yields (None when the installed
   * library has no such probe).
   */
  datatype Appliance = Appliance(
    respond: (seq<string>, string) -> string,
    autodetectFs: Option<string>)

  /** One interactive session, as opened by the library's connection handler. */
  class Connection {
    const deviceType: string
    const host: string
    const username: string
    const password: string
    const appliance: Appliance
    /** Every command sent on this session so far, oldest first. */
    var history: seq<string>

    constructor (deviceType: string, host: string, username: string, password: string, appliance: Appliance)
      ensures this.deviceType == deviceType && this.host == host
      ensures this.username == username && this.password == password
      ensures this.appliance == appliance
      ensures history == []
    {
      this.deviceType := deviceType;
      this.host := host;
      this.username := username;
      this.password := password;
      this.appliance := appliance;
      history := [];
    }

    /** Sends one command and returns what the appliance printed for it. */
    method SendCommand(cmd: string) returns (output: string)
      modifies this
      ensures output == appliance.respond(old(history), cmd)
      ensures history == old(history) + [cmd]
    {
      output := appliance.respond(history, cmd);
      history := history + [cmd];
    }

    /** Enters privileged mode; the password exchange is not recorded. */
    method Enable()
      modifies this
      ensures history == old(history) + [EnableCommand]
    {
      history := history + [EnableCommand];
    }

    /** Asks the library for the writable file system; None means the probe is missing. */
    method AutodetectFs() returns (fs: Option<string>)
      ensures fs == appliance.autodetectFs
    {
      fs := appliance.autodetectFs;
    }
  }
}
