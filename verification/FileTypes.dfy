/** The file type codes shared by FILE_ATTR_RES and the packed directory entries. */
module FileTypes {
  import opened Bytes

  datatype FileType = Pipe | CharDevice | BlockDevice | Directory | RegularFile | Symlink | Socket

  function TypeCode(t: FileType): u8 {
    match t
    case Pipe => 0
    case CharDevice => 1
    case BlockDevice => 2
    case Directory => 3
    case RegularFile => 4
    case Symlink => 5
    case Socket => 6
  }

  /** Rejects the codes that name no type, consuming nothing more of the input. */
  function TypeOfCode(code: u8, rest: seq<byte>): Read<FileType> {
    match code
    case 0 => Got(Pipe, rest)
    case 1 => Got(CharDevice, rest)
    case 2 => Got(BlockDevice, rest)
    case 3 => Got(Directory, rest)
    case 4 => Got(RegularFile, rest)
    case 5 => Got(Symlink, rest)
    case 6 => Got(Socket, rest)
    case _ => Malformed
  }

  lemma TypeCodesInvert(t: FileType, code: u8, rest: seq<byte>)
    ensures TypeOfCode(TypeCode(t), rest) == Got(t, rest)
    ensures TypeOfCode(code, rest).Got? <==> code <= 6
    ensures TypeOfCode(code, rest).Got? ==>
              TypeCode(TypeOfCode(code, rest).value) == code && TypeOfCode(code, rest).rest == rest
  {
  }
}
