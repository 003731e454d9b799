// struct File of kernel/fs.h: what processes and the file system share about an
// open file.
module OpenFiles {
  datatype Kind = StdioFile | RootDir | DiskFile

  class File {
    var count: int           // table entries that name this file
    var off: nat             // where the next read or write starts
    const kind: Kind
    const inode: nat         // the number of the inode's block
    ghost const entry: nat   // its entry in the inode table

    constructor (kind: Kind, inode: nat, ghost entry: nat)
      ensures count == 1 && off == 0 && this.kind == kind && this.inode == inode && this.entry == entry
    {
      this.kind, this.inode, this.entry := kind, inode, entry;
      count, off := 1, 0;
    }
  }
}
