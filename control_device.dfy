/** The kernel module's control device (KStor::ControlDevice): a single volume slot that
    mount and unmount requests fill and empty, the chunk operations routed to the mounted
    volume, the ioctl dispatcher, and the device singleton. */
module ControlDevices {
  import opened Types
  import opened KError

  /** The text of a C string buffer: the characters before the first NUL, or the whole buffer
      when it holds none. */
  function CString(buf: seq<char>): (s: seq<char>)
    ensures |s| <= |buf| && s == buf[..|s|]
    ensures forall i :: 0 <= i < |s| ==> s[i] != '\0'
    ensures |s| < |buf| ==> buf[|s|] == '\0'
  {
    if buf == [] || buf[0] == '\0' then [] else [buf[0]] + CString(buf[1..])
  }

  /** The properties CString ensures pin its result down: any other prefix without a NUL that
      stops at a NUL or at the end is the same string. */
  lemma {:induction false} CStringUnique(buf: seq<char>, s: seq<char>)
    requires |s| <= |buf| && s == buf[..|s|]
    requires forall i :: 0 <= i < |s| ==> s[i] != '\0'
    requires |s| < |buf| ==> buf[|s|] == '\0'
    ensures s == CString(buf)
  {
    if s != [] {
      assert buf[0] == s[0] != '\0';
      assert s[1..] == buf[1..][..|s| - 1];
      CStringUnique(buf[1..], s[1..]);
      assert s == [buf[0]] + s[1..];
    }
  }

  /** A fixed-size name buffer of the command: never empty. */
  type NameBuffer = s: seq<char> | |s| > 0 witness ['\0']

  /** The buffer's last character is its terminator. */
  predicate Terminated(buf: NameBuffer)
  {
    buf[|buf| - 1] == '\0'
  }

  /** A mounted volume: the device name it was opened on and the id it reports. */
  class Volume {
    const deviceName: seq<char>
    const volumeId: Guid

    constructor (deviceName: seq<char>, volumeId: Guid)
      ensures this.deviceName == deviceName && this.volumeId == volumeId
    {
      this.deviceName := deviceName;
      this.volumeId := volumeId;
    }
  }

  /** What the volume layer reports during a mount: whether the volume object could be
      allocated, its constructor's error, Format's and Load's results, and the volume's id. */
  datatype MountOutcome = MountOutcome(volumeAllocated: bool, initErr: Error, formatErr: Error,
                                       loadErr: Error, volumeId: Guid)

  /** The result of the volume's own steps: construction, Format when asked for, then Load. */
  function VolumeSteps(format: bool, o: MountOutcome): (e: Error)
    ensures e == Success <==> o.initErr == Success && (format ==> o.formatErr == Success) && o.loadErr == Success
    ensures o.initErr != Success ==> e == o.initErr
    ensures e != Success ==> e == o.initErr || e == o.formatErr || e == o.loadErr
    ensures !format && o.initErr == Success ==> e == o.loadErr
    ensures format && o.initErr == Success && o.formatErr != Success ==> e == o.formatErr
  {
    if o.initErr != Success then o.initErr
    else if format && o.formatErr != Success then o.formatErr
    else o.loadErr
  }

  /** The ioctl codes of the control device; any other code is Other. */
  datatype IoctlCode = IoctlGetTime | IoctlGetRandomUlong | IoctlMount | IoctlUnmount
                     | IoctlUnmountByName | IoctlStartServer | IoctlStopServer | IoctlOther(code: int)

  /** The ioctl command block. The source keeps the per-command parameters in a union; here
      each member is a field of its own. */
  datatype Cmd = Cmd(time: nat, randomValue: nat, deviceName: NameBuffer, format: bool, blockSize: nat,
                     volumeId: Guid, host: NameBuffer, port: nat)

  /** What Ioctl meets outside the control device: whether the command block could be
      allocated, the results of the copies from and to user memory, the clock, the random
      generator, the volume layer and the server. */
  datatype IoctlEnv = IoctlEnv(cmdAllocated: bool, copyIn: Error, copyOut: Error, time: nat, random: nat,
                               mount: MountOutcome, startServer: Error)

  /** The command block a successful ioctl hands back to the caller. */
  function Reply(code: IoctlCode, cmd: Cmd, env: IoctlEnv): (r: Cmd)
    ensures code.IoctlGetTime? ==> r == cmd.(time := env.time)
    ensures code.IoctlGetRandomUlong? ==> r == cmd.(randomValue := env.random)
    ensures code.IoctlMount? ==> r == cmd.(volumeId := env.mount.volumeId)
    ensures !(code.IoctlGetTime? || code.IoctlGetRandomUlong? || code.IoctlMount?) ==> r == cmd
  {
    match code
    case IoctlGetTime => cmd.(time := env.time)
    case IoctlGetRandomUlong => cmd.(randomValue := env.random)
    case IoctlMount => cmd.(volumeId := env.mount.volumeId)
    case _ => cmd
  }

  /** The caller's command block in user memory. */
  class UserCmd {
    var cmd: Cmd

    constructor (cmd: Cmd)
      ensures this.cmd == cmd
    {
      this.cmd := cmd;
    }
  }

  class ControlDevice {
    /** The volume slot: the mounted volume, if any. */
    var volume: Volume?

    constructor ()
      ensures volume == null
    {
      volume := null;
    }

    /** Mount(deviceName, format, blockSize): the slot is filled before the volume is
        formatted and loaded, and a failure of either leaves it filled. */
    method Mount(deviceName: seq<char>, format: bool, blockSize: nat, outcome: MountOutcome)
      returns (err: Error, volumeId: Option<Guid>)
      modifies this
      ensures old(volume) != null ==> err == AlreadyExists && volume == old(volume) && volumeId.None?
      ensures old(volume) == null && !outcome.volumeAllocated ==> err == NoMemory && volume == null && volumeId.None?
      ensures old(volume) == null && outcome.volumeAllocated ==>
                && volume != null && fresh(volume)
                && volume.deviceName == deviceName && volume.volumeId == outcome.volumeId
                && err == VolumeSteps(format, outcome)
                && volumeId == if err == Success then Some(outcome.volumeId) else None
    {
      if volume != null {
        return AlreadyExists, None;
      }
      if !outcome.volumeAllocated {
        return NoMemory, None;
      }
      volume := new Volume(deviceName, outcome.volumeId);
      if outcome.initErr != Success {
        return outcome.initErr, None;
      }
      if format {
        if outcome.formatErr != Success {
          return outcome.formatErr, None;
        }
      }
      if outcome.loadErr != Success {
        return outcome.loadErr, None;
      }
      return Success, Some(volume.volumeId);
    }

    /** Unmount(volumeId): empties the slot when it holds the volume with that id. */
    method Unmount(volumeId: Guid) returns (err: Error)
      modifies this
      ensures old(volume) != null && old(volume).volumeId == volumeId ==> err == Success && volume == null
      ensures old(volume) == null || old(volume).volumeId != volumeId ==> err == NotFound && volume == old(volume)
    {
      if volume == null {
        return NotFound;
      }
      if volume.volumeId == volumeId {
        volume := null;
        return Success;
      }
      return NotFound;
    }

    /** Unmount(deviceName): empties the slot when it holds the volume opened on that device. */
    method UnmountByName(deviceName: seq<char>) returns (err: Error)
      modifies this
      ensures old(volume) != null && old(volume).deviceName == deviceName ==> err == Success && volume == null
      ensures old(volume) == null || old(volume).deviceName != deviceName ==> err == NotFound && volume == old(volume)
    {
      if volume == null {
        return NotFound;
      }
      if volume.deviceName == deviceName {
        volume := null;
        return Success;
      }
      return NotFound;
    }

    /** ChunkCreate: NotFound with no volume mounted, else the volume's own result. */
    method ChunkCreate(chunkId: Guid, volumeResult: Error) returns (err: Error)
      ensures volume == null ==> err == NotFound
      ensures volume != null ==> err == volumeResult
    {
      if volume == null {
        return NotFound;
      }
      return volumeResult;
    }

    /** ChunkWrite: NotFound with no volume mounted, else the volume's own result. */
    method ChunkWrite(chunkId: Guid, data: seq<Byte>, volumeResult: Error) returns (err: Error)
      ensures volume == null ==> err == NotFound
      ensures volume != null ==> err == volumeResult
    {
      if volume == null {
        return NotFound;
      }
      return volumeResult;
    }

    /** ChunkRead: NotFound with no volume mounted, else the volume's own result. */
    method ChunkRead(chunkId: Guid, volumeResult: Error) returns (err: Error)
      ensures volume == null ==> err == NotFound
      ensures volume != null ==> err == volumeResult
    {
      if volume == null {
        return NotFound;
      }
      return volumeResult;
    }

    /** ChunkDelete: NotFound with no volume mounted, else the volume's own result. */
    method ChunkDelete(chunkId: Guid, volumeResult: Error) returns (err: Error)
      ensures volume == null ==> err == NotFound
      ensures volume != null ==> err == volumeResult
    {
      if volume == null {
        return NotFound;
      }
      return volumeResult;
    }

    /** Ioctl(code, arg): reads the command block from the caller, runs the command, and copies
        the block back only when the command succeeded. */
    method Ioctl(code: IoctlCode, user: UserCmd, env: IoctlEnv) returns (err: Error)
      modifies this, user
      // no command block: nothing happens, and the error stays the initial Success
      ensures !env.cmdAllocated ==> err == Success && volume == old(volume) && user.cmd == old(user.cmd)
      ensures env.cmdAllocated && env.copyIn != Success ==>
                err == env.copyIn && volume == old(volume) && user.cmd == old(user.cmd)
      // name and host buffers must end in their terminator
      ensures env.cmdAllocated && env.copyIn == Success &&
              (((code.IoctlMount? || code.IoctlUnmountByName?) && !Terminated(old(user.cmd).deviceName))
               || (code.IoctlStartServer? && !Terminated(old(user.cmd).host))) ==>
                err == InvalidValue && volume == old(volume) && user.cmd == old(user.cmd)
      ensures env.cmdAllocated && env.copyIn == Success && code.IoctlOther? ==>
                err == UnknownCode && volume == old(volume) && user.cmd == old(user.cmd)
      // each code runs its own handler; a handler's success is followed by the copy back
      ensures env.cmdAllocated && env.copyIn == Success &&
              (code.IoctlGetTime? || code.IoctlGetRandomUlong? || code.IoctlStopServer?) ==>
                err == env.copyOut
      ensures env.cmdAllocated && env.copyIn == Success && code.IoctlStartServer? && Terminated(old(user.cmd).host) ==>
                err == if env.startServer != Success then env.startServer else env.copyOut
      ensures env.cmdAllocated && env.copyIn == Success && code.IoctlUnmount? ==>
                var found := old(volume) != null && old(volume).volumeId == old(user.cmd).volumeId;
                && err == (if found then env.copyOut else NotFound)
                && volume == (if found then null else old(volume))
      ensures env.cmdAllocated && env.copyIn == Success && code.IoctlUnmountByName? && Terminated(old(user.cmd).deviceName) ==>
                var found := old(volume) != null && old(volume).deviceName == CString(old(user.cmd).deviceName);
                && err == (if found then env.copyOut else NotFound)
                && volume == (if found then null else old(volume))
      ensures env.cmdAllocated && env.copyIn == Success && code.IoctlMount? && Terminated(old(user.cmd).deviceName) ==>
                err == if old(volume) != null then AlreadyExists
                       else if !env.mount.volumeAllocated then NoMemory
                       else if VolumeSteps(old(user.cmd).format, env.mount) != Success then VolumeSteps(old(user.cmd).format, env.mount)
                       else env.copyOut
      ensures env.cmdAllocated && env.copyIn == Success && code.IoctlMount? && Terminated(old(user.cmd).deviceName) ==>
                if old(volume) == null && env.mount.volumeAllocated
                then volume != null && fresh(volume) && volume.deviceName == CString(old(user.cmd).deviceName)
                     && volume.volumeId == env.mount.volumeId
                else volume == old(volume)
      // only mount and the two unmounts touch the slot
      ensures !(code.IoctlMount? || code.IoctlUnmount? || code.IoctlUnmountByName?) ==> volume == old(volume)
      ensures env.cmdAllocated && err == Success && code.IoctlMount? ==>
                volume != null && volume.deviceName == CString(old(user.cmd).deviceName)
      ensures env.cmdAllocated && err == Success && (code.IoctlUnmount? || code.IoctlUnmountByName?) ==>
                volume == null
      // the block goes back to the caller exactly when the command and the copy succeeded
      ensures env.cmdAllocated && err == Success ==> user.cmd == Reply(code, old(user.cmd), env)
      ensures err != Success ==> user.cmd == old(user.cmd)
    {
      if !env.cmdAllocated {
        return Success;
      }
      if env.copyIn != Success {
        return env.copyIn;
      }
      var cmd := user.cmd;
      match code {
        case IoctlGetTime =>
          cmd := cmd.(time := env.time);
          err := Success;
        case IoctlGetRandomUlong =>
          cmd := cmd.(randomValue := env.random);
          err := Success;
        case IoctlMount =>
          if !Terminated(cmd.deviceName) {
            err := InvalidValue;
          } else {
            var volumeId: Option<Guid>;
            err, volumeId := Mount(CString(cmd.deviceName), cmd.format, cmd.blockSize, env.mount);
            if err == Success {
              cmd := cmd.(volumeId := volumeId.value);
            }
          }
        case IoctlUnmount =>
          err := Unmount(cmd.volumeId);
        case IoctlUnmountByName =>
          if !Terminated(cmd.deviceName) {
            err := InvalidValue;
          } else {
            err := UnmountByName(CString(cmd.deviceName));
          }
        case IoctlStartServer =>
          if !Terminated(cmd.host) {
            err := InvalidValue;
          } else {
            err := env.startServer;
          }
        case IoctlStopServer =>
          err := Success;
        case IoctlOther(_) =>
          err := UnknownCode;
      }
      if err != Success {
        return err;
      }
      err := env.copyOut;
      if err == Success {
        user.cmd := cmd;
      }
    }
  }

  /** The static ControlDevice::Device singleton. */
  class DeviceRegistry {
    var device: ControlDevice?

    constructor ()
      ensures device == null
    {
      device := null;
    }

    /** Create: a new control device, unless one exists; when the new device's constructor
        fails, the device is dropped again. */
    method Create(deviceAllocated: bool, initErr: Error) returns (err: Error)
      modifies this
      ensures old(device) != null ==> err == InvalidState && device == old(device)
      ensures old(device) == null && !deviceAllocated ==> err == NoMemory && device == null
      ensures old(device) == null && deviceAllocated && initErr != Success ==> err == initErr && device == null
      ensures old(device) == null && deviceAllocated && initErr == Success ==>
                err == Success && device != null && fresh(device) && device.volume == null
    {
      if device != null {
        return InvalidState;
      }
      if !deviceAllocated {
        return NoMemory;
      }
      device := new ControlDevice();
      if initErr != Success {
        device := null;
        return initErr;
      }
      return Success;
    }

    /** Delete: drops the device if there is one. */
    method Delete()
      modifies this
      ensures device == null
    {
      if device != null {
        device := null;
      }
    }
  }
}
