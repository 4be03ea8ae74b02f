/** An open text file: its lines and the read position, as Python's file object
    exposes them through `readline()`, iteration and `seek(0)`. */
module Files {

  /** What `readline()` returns at line index `i`: the line (with its terminator,
      if the file has one there), or `""` past the end of the file. */
  function LineAt(lines: seq<string>, i: nat): string {
    if i < |lines| then lines[i] else ""
  }

  class FileHandle {
    const lines: seq<string>
    var pos: nat

    ghost predicate Valid()
      reads this
    {
      pos <= |lines|
    }

    constructor (lines: seq<string>)
      ensures Valid()
      ensures this.lines == lines && pos == 0
    {
      this.lines := lines;
      pos := 0;
    }

    /** `f.readline()`: the next line, or `""` at the end, where the position stays. */
    method ReadLine() returns (line: string)
      requires Valid()
      modifies this
      ensures Valid()
      ensures line == LineAt(lines, old(pos))
      ensures pos == if old(pos) < |lines| then old(pos) + 1 else old(pos)
    {
      line := LineAt(lines, pos);
      if pos < |lines| {
        pos := pos + 1;
      }
    }

    /** One step of `for line in f`: the next line, or nothing at the end. */
    method Next() returns (more: bool, line: string)
      requires Valid()
      modifies this
      ensures Valid()
      ensures more == (old(pos) < |lines|)
      ensures more ==> line == lines[old(pos)] && pos == old(pos) + 1
      ensures !more ==> pos == old(pos)
    {
      more := pos < |lines|;
      line := "";
      if more {
        line := lines[pos];
        pos := pos + 1;
      }
    }

    /** `f.seek(0)` */
    method Rewind()
      requires Valid()
      modifies this
      ensures Valid() && pos == 0
    {
      pos := 0;
    }
  }

  /** The files the remote-access layer can open, by (host, path). */
  type Remote = map<(string, string), seq<string>>
}
