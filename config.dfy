/** The command-line options the core reads, with the parser's defaults. */
module Config {
  datatype Options = Options(
    remapFrom: int,     // -f, 0 = not given
    remapTo: int,       // -t, 0 = not given
    change: bool,       // -c, make database changes (dry run otherwise)
    quiet: bool,        // -q
    verbose: bool,      // -v
    timeDelayMs: int)   // -d, pause before each write

  const Defaults: Options := Options(0, 0, false, false, false, 1)
}
