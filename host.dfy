/**
 * The host as the handler sees it, reduced to data: the entries of the
 * device directory, and for each device node the descriptor attribute files
 * found one level above its resolved sysfs device directory.
 */
module Host {
  import opened Wrappers

  /**
   * The sysfs side of one device node. `files` maps an attribute file name
   * (`serial`, `manufacturer`, `product`, `bcdDevice`) to its raw contents and
   * holds exactly the files that exist. `failAt == Some(k)` says that the k-th
   * attribute access (0 = serial, 1 = manufacturer, 2 = product, 3 = bcdDevice)
   * raises; a failure to resolve the device symlink is `Some(0)`, since it
   * stops the resolver before its first read.
   */
  datatype DeviceSysfs = DeviceSysfs(files: map<string, string>, failAt: Option<nat>)

  /**
   * `listing` is the device directory's entries in the order the OS reports
   * them, or `None` when listing the directory raises.
   */
  datatype Host = Host(listing: Option<seq<string>>, sysfs: map<string, DeviceSysfs>)

  /** A node the host says nothing about has no attribute files and raises nothing. */
  function SysfsOf(host: Host, name: string): DeviceSysfs
  {
    if name in host.sysfs then host.sysfs[name] else DeviceSysfs(map[], None)
  }
}
