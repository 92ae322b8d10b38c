/** The token classifier of the launcher's argument scan: the pattern
    `^(?:-([^c-]*)?c|--config(?:=|$))(.*)$` applied to one argument, with
    PCRE's default newline conventions (`.` does not match a line feed, `$`
    matches at the end or just before a final line feed). */
module ConfigToken {
  import opened Errors
  import opened Seqs

  /** The two capture groups of a match: group 1, the short flags written
      before `c` ("" for the long spelling), and group 2, the inline value. */
  datatype ConfigMatch = ConfigMatch(prefix: string, inline: string)

  /** `[^c-]`: a character that may stand in a short-flag prefix. */
  predicate IsFlagChar(ch: char)
  {
    ch != 'c' && ch != '-'
  }

  predicate AllFlagChars(s: string)
  {
    forall i :: 0 <= i < |s| ==> IsFlagChar(s[i])
  }

  /** Text that `.*` can match: no line feed. */
  predicate IsLine(s: string)
  {
    forall i :: 0 <= i < |s| ==> s[i] != '\n'
  }

  /** End of the longest run of flag characters in `t` starting at `i`
      (greedy `[^c-]*`). */
  function FlagRunEnd(t: string, i: nat): (j: nat)
    requires i <= |t|
    ensures i <= j <= |t|
    decreases |t| - i
  {
    if i < |t| && IsFlagChar(t[i]) then FlagRunEnd(t, i + 1) else i
  }

  /** The run is made of flag characters and cannot be extended. */
  lemma {:induction false} FlagRunEndSpec(t: string, i: nat)
    requires i <= |t|
    ensures AllFlagChars(t[i..FlagRunEnd(t, i)])
    ensures FlagRunEnd(t, i) < |t| ==> !IsFlagChar(t[FlagRunEnd(t, i)])
    decreases |t| - i
  {
    if i < |t| && IsFlagChar(t[i]) {
      FlagRunEndSpec(t, i + 1);
      var j := FlagRunEnd(t, i + 1);
      assert t[i..j] == [t[i]] + t[i + 1..j];
    }
  }

  /** `(.*)$` applied to the rest of a token: the captured text, if the rest
      is one line, optionally ended by a single line feed. */
  function LineValue(s: string): Option<string>
  {
    if IsLine(s) then Some(s)
    else if |s| > 0 && s[|s| - 1] == '\n' && IsLine(s[..|s| - 1]) then Some(s[..|s| - 1])
    else None
  }

  /** A captured value is one line, and the rest is that line, optionally
      followed by one line feed. */
  lemma LineValueSpec(s: string)
    ensures LineValue(s).Some? ==>
      IsLine(LineValue(s).value) && (s == LineValue(s).value || s == LineValue(s).value + "\n")
  {
    if !IsLine(s) && |s| > 0 && s[|s| - 1] == '\n' {
      assert s == s[..|s| - 1] + "\n";
    }
  }

  /** The alternative `--config(?:=|$)(.*)$`, for a token that starts with `--`. */
  function LongConfig(t: string): Option<ConfigMatch>
  {
    if |t| >= 8 && t[..8] == "--config" then
      var rest := t[8..];
      if |rest| > 0 && rest[0] == '=' then
        match LineValue(rest[1..])
        case Some(v) => Some(ConfigMatch("", v))
        case None => None
      else if rest == "" || rest == "\n" then
        Some(ConfigMatch("", ""))
      else
        None
    else
      None
  }

  /** The alternative `-([^c-]*)?c(.*)$`, for a token that starts with one dash. */
  function ShortConfig(t: string): Option<ConfigMatch>
    requires |t| >= 1
  {
    var j := FlagRunEnd(t, 1);
    if j < |t| && t[j] == 'c' then
      match LineValue(t[j + 1..])
      case Some(v) => Some(ConfigMatch(t[1..j], v))
      case None => None
    else
      None
  }

  /** `preg_match` of the config pattern against one argument. */
  function ClassifyToken(t: string): Option<ConfigMatch>
  {
    if |t| >= 2 && t[0] == '-' && t[1] == '-' then LongConfig(t)
    else if |t| >= 1 && t[0] == '-' then ShortConfig(t)
    else None
  }

  /** Reference description of the pattern: the spellings that match `t`
      with capture groups `m`. */
  predicate Spells(t: string, m: ConfigMatch)
  {
    IsLine(m.inline) &&
    ( (AllFlagChars(m.prefix) &&
       (t == "-" + m.prefix + "c" + m.inline || t == "-" + m.prefix + "c" + m.inline + "\n"))
    || (m.prefix == "" && (t == "--config=" + m.inline || t == "--config=" + m.inline + "\n"))
    || (m == ConfigMatch("", "") && (t == "--config" || t == "--config\n")) )
  }

  lemma FlagRunEndAt(t: string, i: nat, k: nat)
    requires i <= k <= |t|
    requires AllFlagChars(t[i..k])
    requires k < |t| ==> !IsFlagChar(t[k])
    ensures FlagRunEnd(t, i) == k
    decreases k - i
  {
    if i < k {
      assert t[i..k][0] == t[i];
      assert t[i + 1..k] == t[i..k][1..];
      FlagRunEndAt(t, i + 1, k);
    }
  }

  lemma LineValueOf(v: string, eol: string)
    requires IsLine(v)
    requires eol == "" || eol == "\n"
    ensures LineValue(v + eol) == Some(v)
  {
    if eol == "\n" {
      var s := v + eol;
      assert s[|s| - 1] == '\n';
      assert !IsLine(s);
      assert s[..|s| - 1] == v;
    } else {
      assert v + eol == v;
    }
  }

  /** A short spelling `-<prefix>c<inline>`, optionally ended by a line
      feed, is recognised with its capture groups. */
  lemma ShortSpelling(prefix: string, inline: string, eol: string)
    requires AllFlagChars(prefix) && IsLine(inline) && (eol == "" || eol == "\n")
    ensures ClassifyToken("-" + prefix + "c" + inline + eol) == Some(ConfigMatch(prefix, inline))
  {
    var t := "-" + prefix + "c" + inline + eol;
    var k := 1 + |prefix|;
    assert t[1..k] == prefix;
    assert t[k] == 'c';
    assert t[1] != '-' by {
      if |prefix| > 0 { assert t[1] == prefix[0]; }
    }
    FlagRunEndAt(t, 1, k);
    assert t[k + 1..] == inline + eol;
    LineValueOf(inline, eol);
  }

  /** A long spelling `--config=<inline>`, optionally ended by a line feed,
      is recognised with its inline value. */
  lemma LongSpelling(inline: string, eol: string)
    requires IsLine(inline) && (eol == "" || eol == "\n")
    ensures ClassifyToken("--config=" + inline + eol) == Some(ConfigMatch("", inline))
  {
    var t := "--config=" + inline + eol;
    assert t[..8] == "--config";
    assert t[8..] == "=" + (inline + eol);
    assert t[8..][1..] == inline + eol;
    LineValueOf(inline, eol);
  }

  /** Every spelling of the pattern is recognised, with its capture groups. */
  lemma ClassifyComplete(t: string, m: ConfigMatch)
    requires Spells(t, m)
    ensures ClassifyToken(t) == Some(m)
  {
    if AllFlagChars(m.prefix) && t == "-" + m.prefix + "c" + m.inline {
      assert t == "-" + m.prefix + "c" + m.inline + "";
      ShortSpelling(m.prefix, m.inline, "");
    } else if AllFlagChars(m.prefix) && t == "-" + m.prefix + "c" + m.inline + "\n" {
      ShortSpelling(m.prefix, m.inline, "\n");
    } else if m.prefix == "" && t == "--config=" + m.inline {
      assert t == "--config=" + m.inline + "";
      LongSpelling(m.inline, "");
    } else if m.prefix == "" && t == "--config=" + m.inline + "\n" {
      LongSpelling(m.inline, "\n");
    } else {
      assert t[..8] == "--config";
    }
  }

  /** A token that starts with `-` and has `c` at `j` is `-`, the text
      between them, `c`, and the rest. */
  lemma SplitAtC(t: string, j: nat)
    requires 1 <= j < |t| && t[0] == '-' && t[j] == 'c'
    ensures t == "-" + t[1..j] + "c" + t[j + 1..]
  {
    assert t == [t[0]] + t[1..j] + [t[j]] + t[j + 1..];
    assert [t[0]] == "-" && [t[j]] == "c";
  }

  /** Text that is a line, optionally followed by a line feed, appended to
      `head`. */
  lemma AppendLine(head: string, rest: string, v: string)
    requires rest == v || rest == v + "\n"
    ensures head + rest == head + v || head + rest == head + v + "\n"
  {
    if rest != v {
      ConcatAssoc(head, v, "\n");
    }
  }

  /** A token recognised by the long alternative is `--config`, or
      `--config=` followed by its inline value, optionally ended by a line
      feed. */
  lemma LongSound(t: string)
    requires LongConfig(t).Some?
    ensures var m := LongConfig(t).value;
      m.prefix == "" && IsLine(m.inline) &&
      (t == "--config=" + m.inline || t == "--config=" + m.inline + "\n" ||
       (m.inline == "" && (t == "--config" || t == "--config\n")))
  {
    var rest := t[8..];
    assert t == "--config" + rest;
    if |rest| > 0 && rest[0] == '=' {
      var after := rest[1..];
      assert rest == "=" + after;
      LineValueSpec(after);
      var v := LineValue(after).value;
      assert t == "--config=" + after;
      AppendLine("--config=", after, v);
    }
  }

  /** A token recognised by the short alternative is `-`, its flag prefix,
      `c` and its inline value, optionally ended by a line feed. */
  lemma ShortSound(t: string)
    requires |t| >= 1 && t[0] == '-' && ShortConfig(t).Some?
    ensures var m := ShortConfig(t).value;
      AllFlagChars(m.prefix) && IsLine(m.inline) &&
      (t == "-" + m.prefix + "c" + m.inline || t == "-" + m.prefix + "c" + m.inline + "\n")
  {
    var j := FlagRunEnd(t, 1);
    FlagRunEndSpec(t, 1);
    var after := t[j + 1..];
    LineValueSpec(after);
    var v := LineValue(after).value;
    assert j < |t| && t[j] == 'c' && ShortConfig(t).value == ConfigMatch(t[1..j], v);
    SplitAtC(t, j);
    AppendLine("-" + t[1..j] + "c", after, v);
  }

  /** Whatever the classifier recognises is one of the pattern's spellings. */
  lemma ClassifySound(t: string)
    requires ClassifyToken(t).Some?
    ensures Spells(t, ClassifyToken(t).value)
  {
    if |t| >= 2 && t[0] == '-' && t[1] == '-' {
      LongSound(t);
    } else {
      ShortSound(t);
    }
  }

  /** The classifier computes exactly the pattern: `t` matches with groups
      `m` if and only if `t` is one of the spellings described by `Spells`. */
  lemma ClassifySpec(t: string, m: ConfigMatch)
    ensures ClassifyToken(t) == Some(m) <==> Spells(t, m)
  {
    if ClassifyToken(t) == Some(m) { ClassifySound(t); }
    if Spells(t, m) { ClassifyComplete(t, m); }
  }

  /** A recognised short prefix never holds `c` or `-`. */
  lemma PrefixIsFlags(t: string)
    requires ClassifyToken(t).Some?
    ensures AllFlagChars(ClassifyToken(t).value.prefix)
  {
    ClassifySound(t);
  }

  /** The token `-<prefix>` that the scan puts back in place of a cluster
      never itself matches the pattern. */
  lemma RebuiltFlagsNeverMatch(prefix: string)
    requires AllFlagChars(prefix)
    ensures ClassifyToken("-" + prefix) == None
  {
    var t := "-" + prefix;
    assert t[1..] == prefix;
    FlagRunEndAt(t, 1, |t|);
    if |prefix| > 0 { assert t[1] == prefix[0]; }
  }

  /** The short spellings listed in the docblock of `getCoreArguments`. */
  lemma ClassifyShortSpellings()
    ensures ClassifyToken("-c") == Some(ConfigMatch("", ""))
    ensures ClassifyToken("-cfoo.yml") == Some(ConfigMatch("", "foo.yml"))
    ensures ClassifyToken("-xcfoo.yml") == Some(ConfigMatch("x", "foo.yml"))
  {
    assert "-" + "" + "c" + "" + "" == "-c";
    assert "-" + "" + "c" + "foo.yml" + "" == "-cfoo.yml";
    assert "-" + "x" + "c" + "foo.yml" + "" == "-xcfoo.yml";
    ShortSpelling("", "", "");
    ShortSpelling("", "foo.yml", "");
    ShortSpelling("x", "foo.yml", "");
  }

  /** The long spellings listed in the docblock of `getCoreArguments`. */
  lemma ClassifyLongSpellings()
    ensures ClassifyToken("--config") == Some(ConfigMatch("", ""))
    ensures ClassifyToken("--config=foo.yml") == Some(ConfigMatch("", "foo.yml"))
  {
    assert "--config=" + "foo.yml" + "" == "--config=foo.yml";
    ClassifyComplete("--config", ConfigMatch("", ""));
    LongSpelling("foo.yml", "");
  }

  /** Near misses: a long option must be exactly `--config`, and a plain
      short flag without `c` is left alone. */
  lemma ClassifyNearMisses()
    ensures ClassifyToken("--configfoo") == None
    ensures ClassifyToken("--c") == None
    ensures ClassifyToken("-v") == None
    ensures ClassifyToken("run") == None
  {
    assert "--configfoo"[8..] == "foo";
    RebuiltFlagsNeverMatch("v");
    assert "-v" == "-" + "v";
  }
}
