/** The shape of the kernel's seq_file iterator callbacks, with the position
    passed and returned explicitly instead of through `loff_t *`. */
module SeqFile {
  import opened Wrappers

  /** What a start or next callback leaves behind: the record position
      (`*record_number` after the call) and the record its returned pointer
      designates, or None for a NULL return (end of sequence). */
  datatype Step<R> = Step(pos: nat, item: Option<R>)
}
