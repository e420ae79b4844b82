/** Session set-up from the three command-line arguments: chip size, mode and path. */
module Session {
  import opened Bytes
  import opened Wrappers

  /** What the parser needs from the session: the chip-select command byte, the mode
      byte, and `romFile` — the loaded image in write mode, the output path in read mode. */
  datatype Config = Config(chip: byte, mode: byte, image: seq<byte>)

  datatype ArgError = Usage | UnknownChip(size: string) | UnknownMode(mode: string)

  /** Command character the programmer expects for each supported chip size (27C16 … 27C512). */
  function ChipCode(size: string): (r: Option<char>)
    ensures r.Some? <==> size in ["16", "32", "64", "128", "256", "512"]
    ensures r.Some? ==> 'a' <= r.value <= 'f'
  {
    match size
    case "16" => Some('a')
    case "32" => Some('b')
    case "64" => Some('c')
    case "128" => Some('d')
    case "256" => Some('e')
    case "512" => Some('f')
    case _ => None
  }

  /** The chip size a command character selects; the inverse of ChipCode. */
  function ChipSize(code: char): Option<string>
  {
    match code
    case 'a' => Some("16")
    case 'b' => Some("32")
    case 'c' => Some("64")
    case 'd' => Some("128")
    case 'e' => Some("256")
    case 'f' => Some("512")
    case _ => None
  }

  /** Every size that has a code is recovered from that code. */
  lemma ChipCodeInverse(size: string)
    ensures ChipCode(size).Some? ==> ChipSize(ChipCode(size).value) == Some(size)
  {
  }

  /** Every code that names a size is the code of that size. */
  lemma ChipSizeInverse(code: char)
    ensures ChipSize(code).Some? ==> ChipCode(ChipSize(code).value) == Some(code)
  {
  }

  /** Distinct sizes never share a command character. */
  lemma ChipCodeInjective(a: string, b: string)
    requires ChipCode(a).Some? && ChipCode(a) == ChipCode(b)
    ensures a == b
  {
    ChipCodeInverse(a);
    ChipCodeInverse(b);
  }

  /** The session configuration, or why the program exits before opening the port.
      `image` is the content of the image file, read only in write mode: it is read as a
      'binary' string, and `romFile` holds what that string writes back in the same
      encoding, one byte per UTF-16 code unit, so slicing it slices the string. */
  function Configure(args: seq<string>, image: seq<byte>): (r: Result<Config, ArgError>)
    ensures r.Success? <==> |args| == 3 && ChipCode(args[0]).Some? && (args[1] == "r" || args[1] == "w")
    ensures |args| != 3 ==> r == Failure(Usage)
    ensures |args| == 3 && ChipCode(args[0]).None? ==> r == Failure(UnknownChip(args[0]))
    ensures |args| == 3 && ChipCode(args[0]).Some? && args[1] != "r" && args[1] != "w" ==>
              r == Failure(UnknownMode(args[1]))
    ensures r.Success? ==> r.value.chip == ChipCode(args[0]).value as int
    ensures r.Success? ==> r.value.mode == args[1][0] as int
    ensures r.Success? ==> r.value.image == if args[1] == "r" then Latin1(args[2]) else image
  {
    if |args| != 3 then Failure(Usage)
    else match ChipCode(args[0])
      case None => Failure(UnknownChip(args[0]))
      case Some(code) =>
        if args[1] != "r" && args[1] != "w" then Failure(UnknownMode(args[1]))
        else if args[1] == "r" then Success(Config(code as int, 'r' as int, Latin1(args[2])))
        else
          Latin1Binary(image);
          Success(Config(code as int, 'w' as int, Latin1(Binary(image))))
  }
}
