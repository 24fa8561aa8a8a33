/** The method-call handler of the `device_info` channel (MainActivity.kt):
    the ringer-mode probe and the routing of a method name to its operation.
    The Flutter channel itself and the delivery of the reply are framework
    plumbing; the reply is returned as a value. */
module DeviceChannel {
  import opened Wrappers
  import opened AppIcons
  import opened AppInventory

  /** `AudioManager.RINGER_MODE_*`. */
  const RINGER_MODE_SILENT: int := 0
  const RINGER_MODE_VIBRATE: int := 1
  const RINGER_MODE_NORMAL: int := 2

  const ErrorCode: string := "ERROR"
  const InstalledAppsErrorPrefix: string := "Failed to get installed apps: "

  /** `getSoundProfile`: the ringer mode as one of four names. */
  function SoundProfile(ringerMode: int): (profile: string)
    ensures profile in ["sound", "vibrate", "silent", "unknown"]
    ensures profile == "sound" <==> ringerMode == RINGER_MODE_NORMAL
    ensures profile == "vibrate" <==> ringerMode == RINGER_MODE_VIBRATE
    ensures profile == "silent" <==> ringerMode == RINGER_MODE_SILENT
  {
    if ringerMode == RINGER_MODE_NORMAL then "sound"
    else if ringerMode == RINGER_MODE_VIBRATE then "vibrate"
    else if ringerMode == RINGER_MODE_SILENT then "silent"
    else "unknown"
  }

  /** An exception, with its possibly null message. */
  datatype Fault = Fault(message: Option<string>)

  /** Kotlin's string template renders a null message as "null". */
  function MessageText(f: Fault): string {
    if f.message.Some? then f.message.value else "null"
  }

  datatype Payload = Profile(name: string) | Apps(records: seq<AppRecord>)

  /** What the handler delivers: `result.success`, `result.error` (code and
      message; the details are always null) or `result.notImplemented`. */
  datatype Reply = Success(payload: Payload) | Error(code: string, message: string) | NotImplemented

  /** The device as the handler sees it. `escapedFault` is an exception that
      escapes `getInstalledApps` (none of its modelled paths lets one out). */
  datatype Device = Device(
    ringerMode: int,
    packages: Option<seq<PackageInfo>>,
    cache: IconCache,
    sortFails: bool,
    escapedFault: Option<Fault>)

  /** The `when (call.method)` handler of `configureFlutterEngine`. */
  method HandleMethodCall(methodName: string, device: Device) returns (reply: Reply)
    ensures methodName == "getSoundProfile" ==> reply == Success(Profile(SoundProfile(device.ringerMode)))
    ensures methodName == "getInstalledApps" && device.escapedFault.None? ==>
              reply == Success(Apps(InstalledApps(device.packages, device.cache, device.sortFails)))
    ensures methodName == "getInstalledApps" && device.escapedFault.Some? ==>
              reply == Error(ErrorCode, InstalledAppsErrorPrefix + MessageText(device.escapedFault.value))
    ensures reply.NotImplemented? <==> methodName != "getSoundProfile" && methodName != "getInstalledApps"
    ensures reply.Error? ==> methodName == "getInstalledApps" && InstalledAppsErrorPrefix <= reply.message
  {
    match methodName {
      case "getSoundProfile" =>
        reply := Success(Profile(SoundProfile(device.ringerMode)));
      case "getInstalledApps" =>
        if device.escapedFault.Some? {
          reply := Error(ErrorCode, InstalledAppsErrorPrefix + MessageText(device.escapedFault.value));
        } else {
          var apps := GetInstalledApps(device.packages, device.cache, device.sortFails);
          reply := Success(Apps(apps));
        }
      case _ =>
        reply := NotImplemented;
    }
  }
}
