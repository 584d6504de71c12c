/** The operating system as the runtime sees it: open descriptors over fixed file
    contents, and `read`, which may return fewer bytes than asked for. */
module Kernel {
  import opened Lines

  /** An open file description: its contents and the OS read offset. */
  datatype OpenFileRaw = OpenFile(data: Bytes, offset: nat)
  type OpenFile = f: OpenFileRaw | f.offset <= |f.data| witness OpenFile([], 0)

  function Rest(f: OpenFile): Bytes { f.data[f.offset..] }

  /** How many 4096-byte blocks are needed for `n` bytes. */
  function Blocks(n: nat): nat { (n + 4095) / 4096 }

  class Os {
    /** Whether reads of an open descriptor may fail. */
    const mayFault: bool
    /** Whether reads return as much as was asked for and is left. */
    const wholeReads: bool

    var files: map<int, OpenFile>
    ghost var readCalls: nat
    /** Reads and closes of open descriptors that have failed so far. */
    ghost var failures: nat

    constructor (mayFault: bool, wholeReads: bool)
      ensures this.mayFault == mayFault && this.wholeReads == wholeReads
      ensures files == map[] && readCalls == 0 && failures == 0
    {
      this.mayFault, this.wholeReads := mayFault, wholeReads;
      files, readCalls, failures := map[], 0, 0;
    }

    /** Since there were `n` failures there may have been more only if there may be any. */
    ghost predicate Since(n: nat)
      reads this
    {
      n <= failures && (!mayFault ==> failures == n)
    }

    /** `open`: the kernel hands out any number that is not in use. */
    method Open(fd: int, data: Bytes)
      requires fd !in files
      modifies this
      ensures files == old(files)[fd := OpenFile(data, 0)]
      ensures readCalls == old(readCalls) && failures == old(failures)
    {
      files := files[fd := OpenFile(data, 0)];
    }

    /** `close`: a failing close of an open descriptor may or may not release it. */
    method Close(fd: int) returns (n: int)
      modifies this
      ensures readCalls == old(readCalls) && Since(old(failures))
      ensures n == 0 || n == -1
      ensures n == 0 ==> fd in old(files) && files == old(files) - {fd}
      ensures n < 0 ==> files == old(files) || files == old(files) - {fd}
      ensures n < 0 && fd in old(files) ==> failures != old(failures)
    {
      n := if fd in files then 0 else -1;
      var fault: bool, stays: bool := *, *;
      if fd in files && mayFault && fault {
        n := -1;
        failures := failures + 1;
        if stays {
          return;
        }
      }
      files := files - {fd};
    }

    /** `read`: -1 on a descriptor that is not open or on a fault, 0 at the end of
        the file, else any number of bytes from 1 up to `count`. */
    method Read(fd: int, count: nat) returns (n: int, chunk: Bytes)
      requires 0 < count
      modifies this
      ensures readCalls == old(readCalls) + 1 && Since(old(failures))
      ensures -1 <= n <= count && |chunk| == if n < 0 then 0 else n
      ensures n <= 0 ==> files == old(files)
      ensures n < 0 ==> fd !in files || failures != old(failures)
      ensures n == 0 ==> fd in files && Rest(files[fd]) == []
      ensures 0 < n ==> fd in old(files) && fd in files && files == old(files)[fd := files[fd]]
      ensures 0 < n ==> files[fd].data == old(files)[fd].data
      ensures 0 < n ==> files[fd].offset == old(files)[fd].offset + n
      ensures 0 < n ==> Rest(old(files)[fd]) == chunk + Rest(files[fd])
      ensures 0 < n && wholeReads ==> n == count || Rest(files[fd]) == []
    {
      n, chunk := -1, [];
      readCalls := readCalls + 1;
      if fd !in files {
        return;
      }
      var fault: bool := *;
      if mayFault && fault {
        failures := failures + 1;
        return;
      }
      var f := files[fd];
      var left := |f.data| - f.offset;
      var most := if left < count then left else count;
      if most == 0 {
        n := 0;
        return;
      }
      n :| 1 <= n <= most;
      if wholeReads {
        n := most;
      }
      chunk := f.data[f.offset..f.offset + n];
      files := files[fd := OpenFile(f.data, f.offset + n)];
      assert Rest(f) == chunk + Rest(files[fd]);
    }

    /** `lseek(fd, -1, SEEK_CUR)` */
    method StepBack(fd: int)
      requires fd in files && 0 < files[fd].offset
      modifies this
      ensures readCalls == old(readCalls) && failures == old(failures)
      ensures files == old(files)[fd := OpenFile(old(files)[fd].data, old(files)[fd].offset - 1)]
    {
      files := files[fd := OpenFile(files[fd].data, files[fd].offset - 1)];
    }
  }
}
