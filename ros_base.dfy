/** `RosBaseDevice`: the pseudo base device of the bridge. It holds the base's
    binary configuration, loaded once from a file or set to a two-byte
    default, and hands it out by copying it into a caller's buffer. Motion
    requests and movement estimates go through the devices manager, which the
    device holds by a weak reference that may have expired. Reading the file is
    not modelled: whether it opens, and the bytes it yields, are inputs. */
module RosBase {
  newtype uint8 = x: int | 0 <= x < 256

  /** `DefaultBinaryConfig`. */
  const DefaultBinaryConfig: seq<uint8> := [0x50, 0x00]

  /** `DefaultBinaryConfigSize`. */
  const DefaultBinaryConfigSize: nat := 2

  /** What opening the configuration file gave: nothing, or its bytes. */
  datatype ConfigFile = Unopenable | Contents(bytes: seq<uint8>)

  /** The configuration `initBinaryConfig_` settles on: the default when no
      file is named or the named one does not open, the file's bytes
      otherwise. */
  function LoadedConfig(fileName: string, file: ConfigFile): (r: seq<uint8>)
    ensures fileName == [] || file.Unopenable? ==> r == DefaultBinaryConfig
    ensures fileName != [] && file.Contents? ==> r == file.bytes
  {
    if fileName == [] || file.Unopenable? then DefaultBinaryConfig else file.bytes
  }

  /** What `getBinaryConfig` does to a buffer holding `buf` whose capacity
      `*size` is `capacity`: nothing when the configuration does not fit;
      otherwise the configuration overwrites the buffer's prefix. */
  function CopyConfig(config: seq<uint8>, buf: seq<uint8>, capacity: nat): (r: Option<(seq<uint8>, nat)>)
    requires capacity <= |buf|
  {
    if capacity < |config| then None
    else Some((config + buf[|config|..], |config|))
  }

  /** A successful copy reports the configuration's length and leaves the
      configuration in the prefix of that length and the rest untouched; it
      fails exactly when the capacity is below the configuration's length. */
  lemma CopyConfigReadsBack(config: seq<uint8>, buf: seq<uint8>, capacity: nat)
    requires capacity <= |buf|
    ensures CopyConfig(config, buf, capacity).None? <==> capacity < |config|
    ensures CopyConfig(config, buf, capacity).Some? ==>
              var (b, n) := CopyConfig(config, buf, capacity).value;
              && n == |config| && |b| == |buf| && b[..n] == config && b[n..] == buf[n..]
  {
  }

  datatype Option<T> = None | Some(value: T)

  /** `size_t*` as the caller passes it. */
  class SizeRef {
    var value: nat

    constructor (value: nat)
      ensures this.value == value
    {
      this.value := value;
    }
  }

  /** The devices manager as seen from the device: the motions published to
      it and the movement estimate it hands out. */
  class DevicesManager<M, E> {
    var motions: seq<M>
    var estimation: E

    constructor (estimation: E)
      ensures motions == [] && this.estimation == estimation
    {
      motions := [];
      this.estimation := estimation;
    }
  }

  class RosBaseDevice<M, E> {
    const manager: DevicesManager<M, E>
    /** Whether the weak reference to the manager has expired. */
    var expired: bool
    var binaryConfig: seq<uint8>

    /** The constructor loads the configuration named `fileName`. */
    constructor (manager: DevicesManager<M, E>, fileName: string, file: ConfigFile)
      ensures this.manager == manager && !expired
      ensures binaryConfig == LoadedConfig(fileName, file)
    {
      this.manager := manager;
      expired := false;
      new;
      InitBinaryConfig(fileName, file);
    }

    /** `initBinaryConfig_`. */
    method InitBinaryConfig(fileName: string, file: ConfigFile)
      modifies this`binaryConfig
      ensures binaryConfig == LoadedConfig(fileName, file)
    {
      if fileName == [] {
        InitDefaultBinaryConfig();
        return;
      }
      match file
      case Unopenable =>
        InitDefaultBinaryConfig();
      case Contents(bytes) =>
        binaryConfig := bytes;
    }

    /** `initDefaultBinaryConfig_`. */
    method InitDefaultBinaryConfig()
      modifies this`binaryConfig
      ensures binaryConfig == DefaultBinaryConfig
    {
      binaryConfig := DefaultBinaryConfig[..DefaultBinaryConfigSize];
    }

    /** `getBinaryConfig`: fails, writing nothing, when the buffer or the size is
        null or the capacity `*size` is below the configuration's length;
        otherwise copies the configuration into the buffer's prefix and
        sets `*size` to its length. The caller's buffer holds `*size`
        bytes. */
    method GetBinaryConfig(buf: array?<uint8>, size: SizeRef?) returns (ok: bool)
      requires buf != null && size != null ==> size.value <= buf.Length
      modifies buf, size
      ensures ok <==> buf != null && size != null && |binaryConfig| <= old(size.value)
      ensures ok ==> CopyConfig(binaryConfig, old(buf[..]), old(size.value)) == Some((buf[..], size.value))
      ensures !ok ==> (buf != null ==> buf[..] == old(buf[..])) && (size != null ==> size.value == old(size.value))
    {
      if buf == null || size == null || size.value < |binaryConfig| {
        return false;
      }
      size.value := |binaryConfig|;
      var i := 0;
      while i < |binaryConfig|
        invariant 0 <= i <= |binaryConfig| <= buf.Length && size.value == |binaryConfig|
        invariant buf[..i] == binaryConfig[..i]
        invariant buf[i..] == old(buf[i..])
      {
        buf[i] := binaryConfig[i];
        i := i + 1;
      }
      assert buf[..] == binaryConfig + old(buf[..])[i..] by {
        assert buf[..] == buf[..i] + buf[i..];
        assert old(buf[..])[i..] == old(buf[i..]);
      }
      ok := true;
    }

    /** `requestMotion`: false when the manager is gone; otherwise the
        request is published to it. */
    method RequestMotion(request: M) returns (ok: bool)
      modifies manager`motions
      ensures ok <==> !expired
      ensures manager.motions == if ok then old(manager.motions) + [request] else old(manager.motions)
    {
      if expired {
        return false;
      }
      manager.motions := manager.motions + [request];
      ok := true;
    }

    /** `getMovementEstimation`: false, leaving the estimate as it was, when
        the manager is gone; otherwise the manager's estimate. */
    method GetMovementEstimation(estimation: E) returns (ok: bool, out: E)
      ensures ok <==> !expired
      ensures out == if ok then manager.estimation else estimation
    {
      if expired {
        return false, estimation;
      }
      return true, manager.estimation;
    }

    /** `getExtendedSensorData`: reports success and leaves the data as it
        was. */
    method GetExtendedSensorData<S>(data: seq<S>) returns (ok: bool, out: seq<S>)
      ensures ok && out == data
    {
      return true, data;
    }

    /** `getBaseStatus`: reports success and leaves the status as it was. */
    method GetBaseStatus<S>(status: S) returns (ok: bool, out: S)
      ensures ok && out == status
    {
      return true, status;
    }
  }
}
