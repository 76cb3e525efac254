/** The tree of argp parsers. */
module ArgpTree {
  import opened Common
  import opened ArgpOptions

  /** struct argp: its option table, whether it has a parser function, its args_doc and its children. */
  datatype Argp = Argp(options: Option<seq<ArgpOption>>, parser: bool, argsDoc: Option<string>, children: Children)

  /** An array of struct argp_child up to the entry with a null argp. */
  datatype Children = End | Child(argp: Argp, next: Children)
}
