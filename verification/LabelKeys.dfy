/** The key that groups labels and remembered entries: a digest of the working
    directory and the argument vector, NUL-separated. */
module LabelKeys {
  import opened Sequences

  const NUL := '\0'

  /** What is digested. */
  function Preimage(cwd: string, argv: seq<string>): string {
    cwd + [NUL] + Join(argv, NUL)
  }

  /** The key under a digest `hash`, which the model leaves open. */
  function LabelKey(hash: string -> string, cwd: string, argv: seq<string>): string {
    hash(Preimage(cwd, argv))
  }

  ghost predicate NulFree(cwd: string, argv: seq<string>) {
    NUL !in cwd && SepFree(argv, NUL)
  }

  /** The splitter: directory and arguments read back from a preimage. */
  function Unsplit(p: string): (string, seq<string>) {
    var parts := Split(p, NUL);
    (parts[0], parts[1..])
  }

  /** An argument vector up to the one confusion the separator allows. */
  function Visible(argv: seq<string>): seq<string> {
    if argv == [] then [""] else argv
  }

  lemma UnsplitPreimage(cwd: string, argv: seq<string>)
    requires NulFree(cwd, argv)
    ensures Unsplit(Preimage(cwd, argv)) == (cwd, Visible(argv))
  {
    SplitConcat(cwd, Join(argv, NUL), NUL);
    SplitWithoutSep(cwd, NUL);
    SplitJoin(Visible(argv), NUL);
    assert Join(Visible(argv), NUL) == Join(argv, NUL);
  }

  /** Two preimages agree exactly when the inputs do, except that no argument
      and one empty argument look alike. */
  lemma PreimageInjective(cwd: string, argv: seq<string>, cwd': string, argv': seq<string>)
    requires NulFree(cwd, argv) && NulFree(cwd', argv')
    ensures Preimage(cwd, argv) == Preimage(cwd', argv') <==>
      cwd == cwd' && (argv == argv' || (argv == [] && argv' == [""]) || (argv == [""] && argv' == []))
  {
    UnsplitPreimage(cwd, argv);
    UnsplitPreimage(cwd', argv');
    assert Join([""], NUL) == Join<char>([], NUL);
  }
}
