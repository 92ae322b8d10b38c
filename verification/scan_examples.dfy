/** The scan on the spellings listed in the docblock of `getCoreArguments`
    (src/Codeception/Application.php:119-122) and on a few edge cases: what
    the loop keeps and what it preloads. They are stated on the loop
    (`Scan`); by `CoreScan.ScanAgrees` they describe the segmentation as
    well. */
module ScanExamples {
  import opened Errors
  import opened ConfigToken
  import opened CoreScan

  /** `-c foo.yml` and `--config foo.yml` take the next argument as the path
      and drop both arguments. */
  lemma SeparateValue()
    ensures Scan(["run", "-c", "foo.yml"]) == ScanResult(["run"], ["foo.yml"])
    ensures Scan(["run", "--config", "foo.yml"]) == ScanResult(["run"], ["foo.yml"])
  {
    ClassifyShortSpellings();
    ClassifyLongSpellings();
    ClassifyNearMisses();
    assert ClassifyToken("foo.yml") == None;
  }

  /** `-cfoo.yml` and `--config=foo.yml` carry the path inline. */
  lemma InlineValue()
    ensures Scan(["run", "-cfoo.yml"]) == ScanResult(["run"], ["foo.yml"])
    ensures Scan(["run", "--config=foo.yml", "x"]) == ScanResult(["run", "x"], ["foo.yml"])
  {
    ClassifyShortSpellings();
    ClassifyLongSpellings();
    ClassifyNearMisses();
    assert ClassifyToken("x") == None;
  }

  /** `-xcfoo.yml` keeps the other flag of the cluster as `-x`. */
  lemma ClusterKeepsOtherFlags()
    ensures Scan(["run", "-xcfoo.yml"]) == ScanResult(["run", "-x"], ["foo.yml"])
  {
    ClassifyShortSpellings();
    ClassifyNearMisses();
    assert PhpNonEmpty("x") && "-" + "x" == "-x";
  }

  /** The argument after an empty `-c` is taken as the path even when it
      looks like an option. */
  lemma OptionTakenAsPath()
    ensures Scan(["-c", "--verbose", "run"]) == ScanResult(["run"], ["--verbose"])
  {
    ClassifyShortSpellings();
    ClassifyNearMisses();
  }

  /** A trailing `-c`, or one followed by the empty argument, preloads
      nothing and takes nothing more. */
  lemma InertFlags()
    ensures Scan(["run", "-c"]) == ScanResult(["run"], [])
    ensures Scan(["-c", "", "run"]) == ScanResult(["", "run"], [])
  {
    ClassifyShortSpellings();
    ClassifyNearMisses();
    assert ClassifyToken("") == None;
  }

  /** Several config flags give several preloads, in argument order. */
  lemma SeveralFlags()
    ensures Scan(["-ca.yml", "--config=b.yml"]) == ScanResult([], ["a.yml", "b.yml"])
  {
    assert "-" + "" + "c" + "a.yml" + "" == "-ca.yml";
    assert "--config=" + "b.yml" + "" == "--config=b.yml";
    ShortSpelling("", "a.yml", "");
    LongSpelling("b.yml", "");
  }

  /** A cluster whose other flags are exactly "0" loses them, because PHP's
      `empty("0")` holds. */
  lemma ZeroPrefixDropped()
    ensures Scan(["-0cfoo"]) == ScanResult([], ["foo"])
  {
    assert "-" + "0" + "c" + "foo" + "" == "-0cfoo";
    ShortSpelling("0", "foo", "");
  }
}
