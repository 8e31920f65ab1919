/** The system snapshot shown in the header panel. */
module SysInfo {
  import opened MachineInts

  /** `SystemInfo`: seconds since boot. */
  datatype SystemInfo = SystemInfo(uptime: u64)

  /** `Default for SystemInfo`. */
  function DefaultSystemInfo(): (r: SystemInfo)
    ensures r.uptime == 0
  {
    SystemInfo(0)
  }
}
