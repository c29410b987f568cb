/** The `Fork_info` record: the most recent process creation the kernel captured. */
module ForkRecord {
  import opened CTypes

  /** Capacity of the `command_name` array. */
  const CommandNameSize: nat := 16

  /** The raw `char command_name[16]`: exactly 16 bytes, not necessarily NUL-terminated. */
  type CommandName = s: seq<u8> | |s| == CommandNameSize witness seq(CommandNameSize, _ => 0)

  datatype ForkInfo = ForkInfo(
    cloneFlags: u64,
    parentPid: i32,
    childPid: i32,
    parentUid: u16,
    commandName: CommandName,
    childReturn: i64)
}
