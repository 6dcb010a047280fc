/** What the block layer and the log agree on. */
module BlockDevice {

  /** The contents of a disk block, as words. */
  type Block = seq<int>
}
