/** What the launcher's scan of the raw argument vector computes. The scan
    is described twice: as a segmentation of the vector into pieces (a plain
    argument, or a config flag together with the value it resolves, inline or
    from the next argument, which it then covers too), and as the loop itself
    (`ScanFrom`), which the launcher's method follows step by step. The two
    are proved to agree, and the segmentation is proved to be the only one
    that obeys the pattern's rules. */
module CoreScan {
  import opened Errors
  import opened Seqs
  import opened ConfigToken

  datatype Piece =
    | Plain(token: string)
    | ConfigFlag(token: string, m: ConfigMatch, value: string, consumesNext: bool)

  /** A string that PHP's `empty()` does not consider empty: "" and "0" are empty. */
  predicate PhpNonEmpty(s: string)
  {
    s != "" && s != "0"
  }

  /** `$argv[$i] ?? ''`. */
  function ArgAt(argv: seq<string>, i: nat): string
  {
    if i < |argv| then argv[i] else ""
  }

  /** The arguments a piece stands for: its own token, and the next argument
      when it takes it as its value. */
  function Covered(p: Piece): (r: seq<string>)
    ensures 1 <= |r| <= 2 && r[0] == p.token
  {
    match p
    case Plain(t) => [t]
    case ConfigFlag(t, _, v, consumes) => if consumes then [t, v] else [t]
  }

  /** The piece the scan reads at `i`. */
  function PieceAt(argv: seq<string>, i: nat): (p: Piece)
    requires i < |argv|
    ensures i + |Covered(p)| <= |argv|
  {
    match ClassifyToken(argv[i])
    case None => Plain(argv[i])
    case Some(m) =>
      var value := if m.inline != "" then m.inline else ArgAt(argv, i + 1);
      var consumes := m.inline == "" && value != "";
      ConfigFlag(argv[i], m, value, consumes)
  }

  /** The piece read at `i` obeys the pattern's rules and stands for the
      arguments from `i` on; a flag that resolves to "" without an inline
      value is last or followed by the empty argument. */
  lemma PieceAtSpec(argv: seq<string>, i: nat)
    requires i < |argv|
    ensures var p := PieceAt(argv, i);
      PieceRule(p) && p.token == argv[i] && argv[i..i + |Covered(p)|] == Covered(p) &&
      (p.ConfigFlag? && p.m.inline == "" && !p.consumesNext ==>
        p.value == "" && (i + 1 < |argv| ==> argv[i + 1] == ""))
  {
    var p := PieceAt(argv, i);
    if p.ConfigFlag? && p.consumesNext {
      assert argv[i..i + 2] == [argv[i], argv[i + 1]];
    }
  }

  /** The segmentation of `argv[i..]` that the scan walks through. */
  function PiecesFrom(argv: seq<string>, i: nat): seq<Piece>
    requires i <= |argv|
    decreases |argv| - i
  {
    if i == |argv| then []
    else
      var p := PieceAt(argv, i);
      [p] + PiecesFrom(argv, i + |Covered(p)|)
  }

  function Pieces(argv: seq<string>): seq<Piece>
  {
    PiecesFrom(argv, 0)
  }

  function Flatten(ps: seq<Piece>): seq<string>
  {
    if ps == [] then [] else Covered(ps[0]) + Flatten(ps[1..])
  }

  /** The arguments the scan keeps for a piece: a plain argument unchanged,
      and for a config flag the rebuilt cluster `-<prefix>` when the prefix is
      not empty in PHP's sense. */
  function Kept(p: Piece): seq<string>
  {
    match p
    case Plain(t) => [t]
    case ConfigFlag(_, m, _, _) => if PhpNonEmpty(m.prefix) then ["-" + m.prefix] else []
  }

  function Remaining(ps: seq<Piece>): seq<string>
  {
    if ps == [] then [] else Kept(ps[0]) + Remaining(ps[1..])
  }

  /** The configuration path a piece asks to preload, if any. */
  function Requested(p: Piece): seq<string>
  {
    match p
    case Plain(_) => []
    case ConfigFlag(_, _, v, _) => if v != "" then [v] else []
  }

  function Preloads(ps: seq<Piece>): seq<string>
  {
    if ps == [] then [] else Requested(ps[0]) + Preloads(ps[1..])
  }

  /** The filtered argument vector the scan builds. */
  function ScanRemaining(argv: seq<string>): seq<string>
  {
    Remaining(Pieces(argv))
  }

  /** The configuration paths the scan preloads, in the order it issues them. */
  function ScanPreloads(argv: seq<string>): seq<string>
  {
    Preloads(Pieces(argv))
  }

  /** What the scan builds, read straight off the loop: the filtered vector
      and the preloaded paths in issue order. */
  datatype ScanResult = ScanResult(remaining: seq<string>, preloads: seq<string>)

  /** The loop of the scan from index `i`, with `kept` and `preloaded`
      accumulated so far. */
  function ScanFrom(argv: seq<string>, i: nat, kept: seq<string>, preloaded: seq<string>): ScanResult
    requires i <= |argv|
    decreases |argv| - i
  {
    if i == |argv| then ScanResult(kept, preloaded)
    else
      match ClassifyToken(argv[i])
      case None => ScanFrom(argv, i + 1, kept + [argv[i]], preloaded)
      case Some(m) =>
        var value := if m.inline != "" then m.inline else ArgAt(argv, i + 1);
        var next := if m.inline == "" && value != "" then i + 2 else i + 1;
        ScanFrom(argv, next,
          if PhpNonEmpty(m.prefix) then kept + ["-" + m.prefix] else kept,
          if value != "" then preloaded + [value] else preloaded)
  }

  /** The whole scan. */
  function Scan(argv: seq<string>): ScanResult
  {
    ScanFrom(argv, 0, [], [])
  }

  /** The loop only ever appends to the paths it has issued. */
  lemma {:induction false} ScanFromIssues(argv: seq<string>, i: nat, kept: seq<string>, preloaded: seq<string>)
    requires i <= |argv|
    ensures |preloaded| <= |ScanFrom(argv, i, kept, preloaded).preloads|
    ensures ScanFrom(argv, i, kept, preloaded).preloads[..|preloaded|] == preloaded
    decreases |argv| - i
  {
    if i < |argv| {
      match ClassifyToken(argv[i])
      case None =>
        ScanFromIssues(argv, i + 1, kept + [argv[i]], preloaded);
      case Some(m) =>
        var value := if m.inline != "" then m.inline else ArgAt(argv, i + 1);
        var next := if m.inline == "" && value != "" then i + 2 else i + 1;
        var kept' := if PhpNonEmpty(m.prefix) then kept + ["-" + m.prefix] else kept;
        var preloaded' := if value != "" then preloaded + [value] else preloaded;
        ScanFromIssues(argv, next, kept', preloaded');
        var r := ScanFrom(argv, next, kept', preloaded').preloads;
        assert r[..|preloaded|] == r[..|preloaded'|][..|preloaded|];
    }
  }

  // ---------------------------------------------------------------------
  // A description of the segmentation that does not walk the vector.

  /** Local rules of one piece: a plain argument does not match the pattern;
      a config flag does, its value is the inline value when there is one,
      and it covers the next argument exactly when the inline value is empty
      and the resolved value is not. */
  predicate PieceRule(p: Piece)
  {
    match p
    case Plain(t) => ClassifyToken(t).None?
    case ConfigFlag(t, m, v, consumes) =>
      ClassifyToken(t) == Some(m) &&
      (m.inline != "" ==> v == m.inline && !consumes) &&
      (m.inline == "" ==> (consumes <==> v != ""))
  }

  /** Look-ahead rule: a config flag with no inline value that does not
      take the next argument resolves to "" and is followed by nothing or by
      the empty argument. */
  predicate LookaheadRule(ps: seq<Piece>)
  {
    forall k :: 0 <= k < |ps| && ps[k].ConfigFlag? && ps[k].m.inline == "" && !ps[k].consumesNext ==>
      ps[k].value == "" && (k + 1 < |ps| ==> ps[k + 1] == Plain(""))
  }

  predicate Segmentation(argv: seq<string>, ps: seq<Piece>)
  {
    Flatten(ps) == argv &&
    (forall k :: 0 <= k < |ps| ==> PieceRule(ps[k])) &&
    LookaheadRule(ps)
  }

  lemma FlattenCons(p: Piece, ps: seq<Piece>)
    ensures Flatten([p] + ps) == Covered(p) + Flatten(ps)
    ensures Remaining([p] + ps) == Kept(p) + Remaining(ps)
    ensures Preloads([p] + ps) == Requested(p) + Preloads(ps)
  {
    assert ([p] + ps)[1..] == ps;
  }

  /** The pieces cover `argv[i..]` exactly and in order. */
  lemma {:induction false} PiecesCover(argv: seq<string>, i: nat)
    requires i <= |argv|
    ensures Flatten(PiecesFrom(argv, i)) == argv[i..]
    decreases |argv| - i
  {
    if i < |argv| {
      var p := PieceAt(argv, i);
      var next := i + |Covered(p)|;
      var rest := PiecesFrom(argv, next);
      assert PiecesFrom(argv, i) == [p] + rest;
      FlattenCons(p, rest);
      PieceAtSpec(argv, i);
      PiecesCover(argv, next);
      SliceJoin(argv, i, next, Covered(p), Flatten(rest));
    }
  }

  /** The piece rule holds of every piece of `[p] + rest` when it holds of
      `p` and of every piece of `rest`. */
  lemma RuleCons(p: Piece, rest: seq<Piece>)
    requires PieceRule(p) && forall k :: 0 <= k < |rest| ==> PieceRule(rest[k])
    ensures forall k :: 0 <= k < |[p] + rest| ==> PieceRule(([p] + rest)[k])
  {
    forall k | 1 <= k < |[p] + rest|
      ensures PieceRule(([p] + rest)[k])
    {
      assert ([p] + rest)[k] == rest[k - 1];
    }
  }

  /** Every piece obeys the piece rule. */
  lemma {:induction false} PiecesObeyRule(argv: seq<string>, i: nat)
    requires i <= |argv|
    ensures forall k :: 0 <= k < |PiecesFrom(argv, i)| ==> PieceRule(PiecesFrom(argv, i)[k])
    decreases |argv| - i
  {
    if i < |argv| {
      var p := PieceAt(argv, i);
      var next := i + |Covered(p)|;
      assert PiecesFrom(argv, i) == [p] + PiecesFrom(argv, next);
      PieceAtSpec(argv, i);
      PiecesObeyRule(argv, next);
      RuleCons(p, PiecesFrom(argv, next));
    }
  }

  /** The look-ahead rule holds of `[p] + rest` when it holds of `rest` and
      `p` is not a flag left without a value, or is one followed by nothing
      or by the empty argument. */
  lemma LookaheadCons(p: Piece, rest: seq<Piece>)
    requires LookaheadRule(rest)
    requires p.ConfigFlag? && p.m.inline == "" && !p.consumesNext ==>
      p.value == "" && (rest != [] ==> rest[0] == Plain(""))
    ensures LookaheadRule([p] + rest)
  {
    var ps := [p] + rest;
    forall k | 1 <= k < |ps| && ps[k].ConfigFlag? && ps[k].m.inline == "" && !ps[k].consumesNext
      ensures ps[k].value == "" && (k + 1 < |ps| ==> ps[k + 1] == Plain(""))
    {
      assert ps[k] == rest[k - 1];
      if k + 1 < |ps| { assert ps[k + 1] == rest[k]; }
    }
  }

  /** The pieces obey the look-ahead rule. */
  lemma {:induction false} PiecesLookahead(argv: seq<string>, i: nat)
    requires i <= |argv|
    ensures LookaheadRule(PiecesFrom(argv, i))
    decreases |argv| - i
  {
    if i < |argv| {
      var p := PieceAt(argv, i);
      var next := i + |Covered(p)|;
      var rest := PiecesFrom(argv, next);
      assert PiecesFrom(argv, i) == [p] + rest;
      PieceAtSpec(argv, i);
      PiecesLookahead(argv, next);
      if p.ConfigFlag? && p.m.inline == "" && !p.consumesNext && i + 1 < |argv| {
        assert next == i + 1;
        assert rest[0] == PieceAt(argv, i + 1);
        assert ClassifyToken("") == None;
      }
      LookaheadCons(p, rest);
    }
  }

  /** The scan's segmentation covers `argv[i..]` exactly and in order, and
      obeys the piece and look-ahead rules. */
  lemma PiecesAreSegmentation(argv: seq<string>, i: nat)
    requires i <= |argv|
    ensures Segmentation(argv[i..], PiecesFrom(argv, i))
  {
    PiecesCover(argv, i);
    PiecesObeyRule(argv, i);
    PiecesLookahead(argv, i);
  }

  /** Dropping the first piece of a segmentation leaves a segmentation of
      the arguments after the ones it covers. */
  lemma SegmentationTail(s: seq<string>, ps: seq<Piece>)
    requires ps != [] && Segmentation(s, ps)
    ensures |Covered(ps[0])| <= |s| && s[..|Covered(ps[0])|] == Covered(ps[0])
    ensures Segmentation(s[|Covered(ps[0])|..], ps[1..])
  {
    var rest := ps[1..];
    assert ps == [ps[0]] + rest;
    FlattenCons(ps[0], rest);
    assert s[|Covered(ps[0])|..] == Flatten(rest);
    forall k | 0 <= k < |rest|
      ensures PieceRule(rest[k])
    {
      assert rest[k] == ps[k + 1];
    }
    forall k | 0 <= k < |rest| && rest[k].ConfigFlag? && rest[k].m.inline == "" && !rest[k].consumesNext
      ensures rest[k].value == "" && (k + 1 < |rest| ==> rest[k + 1] == Plain(""))
    {
      assert rest[k] == ps[k + 1];
      if k + 1 < |rest| { assert rest[k + 1] == ps[k + 2]; }
    }
  }

  /** The first piece of any segmentation of `argv[i..]` is the piece the
      scan reads at `i`. */
  lemma HeadPiece(argv: seq<string>, i: nat, ps: seq<Piece>)
    requires i < |argv| && ps != []
    requires Segmentation(argv[i..], ps)
    ensures ps[0] == PieceAt(argv, i)
  {
    var p := ps[0];
    SegmentationTail(argv[i..], ps);
    assert PieceRule(p);
    assert argv[i] == argv[i..][0] == p.token;
    if p.ConfigFlag? && p.m.inline == "" && !p.consumesNext && i + 1 < |argv| {
      assert 1 < |ps|;
      assert ps[1] == Plain("");
      var tail := ps[1..];
      assert tail == [ps[1]] + tail[1..];
      FlattenCons(ps[1], tail[1..]);
      assert argv[i + 1] == argv[i..][1] == Flatten(tail)[0] == "";
    }
    if p.ConfigFlag? && p.consumesNext {
      assert argv[i + 1] == argv[i..][1] == p.value;
    }
  }

  /** The segmentation is unique: any sequence of pieces that covers
      `argv[i..]` and obeys the rules is the one the scan walks through. */
  lemma {:induction false} SegmentationUnique(argv: seq<string>, i: nat, ps: seq<Piece>)
    requires i <= |argv|
    requires Segmentation(argv[i..], ps)
    ensures ps == PiecesFrom(argv, i)
    decreases |argv| - i
  {
    if ps == [] {
      assert argv[i..] == Flatten(ps) == [];
    } else {
      SegmentationTail(argv[i..], ps);
      assert i < |argv|;
      HeadPiece(argv, i, ps);
      var next := i + |Covered(ps[0])|;
      assert argv[i..][|Covered(ps[0])|..] == argv[next..];
      SegmentationUnique(argv, next, ps[1..]);
      assert ps == [ps[0]] + ps[1..];
    }
  }

  /** One turn of the loop handles exactly the piece read at `i`: it keeps
      what the piece keeps and preloads what the piece requests. */
  lemma ScanFromStep(argv: seq<string>, i: nat, kept: seq<string>, preloaded: seq<string>)
    requires i < |argv|
    ensures var p := PieceAt(argv, i);
      ScanFrom(argv, i, kept, preloaded) ==
      ScanFrom(argv, i + |Covered(p)|, kept + Kept(p), preloaded + Requested(p))
  {
    assert kept + [] == kept && preloaded + [] == preloaded;
  }

  /** The loop computes the segmentation's kept arguments and requested
      paths, appended to what it had accumulated. */
  lemma {:induction false} ScanFromPieces(argv: seq<string>, i: nat, kept: seq<string>, preloaded: seq<string>)
    requires i <= |argv|
    ensures ScanFrom(argv, i, kept, preloaded) ==
      ScanResult(kept + Remaining(PiecesFrom(argv, i)), preloaded + Preloads(PiecesFrom(argv, i)))
    decreases |argv| - i
  {
    if i == |argv| {
      assert kept + [] == kept && preloaded + [] == preloaded;
    } else {
      var p := PieceAt(argv, i);
      var next := i + |Covered(p)|;
      var rest := PiecesFrom(argv, next);
      assert PiecesFrom(argv, i) == [p] + rest;
      FlattenCons(p, rest);
      ScanFromStep(argv, i, kept, preloaded);
      ScanFromPieces(argv, next, kept + Kept(p), preloaded + Requested(p));
      ConcatAssoc(kept, Kept(p), Remaining(rest));
      ConcatAssoc(preloaded, Requested(p), Preloads(rest));
    }
  }

  /** Run from the start, the loop yields exactly the filtered vector and the
      preloads of the segmentation. */
  lemma ScanAgrees(argv: seq<string>)
    ensures Scan(argv) == ScanResult(ScanRemaining(argv), ScanPreloads(argv))
  {
    ScanFromPieces(argv, 0, [], []);
    assert [] + ScanRemaining(argv) == ScanRemaining(argv);
    assert [] + ScanPreloads(argv) == ScanPreloads(argv);
  }

  // ---------------------------------------------------------------------
  // Properties of the filtered vector and of the preloads.

  /** No argument of `s` matches the pattern. */
  predicate Unmatched(s: seq<string>)
  {
    forall k :: 0 <= k < |s| ==> ClassifyToken(s[k]).None?
  }

  lemma UnmatchedConcat(a: seq<string>, b: seq<string>)
    requires Unmatched(a) && Unmatched(b)
    ensures Unmatched(a + b)
  {
    forall k | 0 <= k < |a + b|
      ensures ClassifyToken((a + b)[k]).None?
    {
      if k < |a| { assert (a + b)[k] == a[k]; } else { assert (a + b)[k] == b[k - |a|]; }
    }
  }

  /** No argument of the filtered vector matches the pattern: every matching
      argument is dropped and a rebuilt cluster `-<prefix>` never matches. */
  lemma {:induction false} RemainingUnmatched(argv: seq<string>, i: nat)
    requires i <= |argv|
    ensures Unmatched(Remaining(PiecesFrom(argv, i)))
    decreases |argv| - i
  {
    if i < |argv| {
      var p := PieceAt(argv, i);
      var next := i + |Covered(p)|;
      var rest := PiecesFrom(argv, next);
      assert PiecesFrom(argv, i) == [p] + rest;
      FlattenCons(p, rest);
      RemainingUnmatched(argv, next);
      assert Unmatched(Kept(p)) by {
        PieceAtSpec(argv, i);
        if p.ConfigFlag? {
          PrefixIsFlags(argv[i]);
          RebuiltFlagsNeverMatch(p.m.prefix);
        }
      }
      UnmatchedConcat(Kept(p), Remaining(rest));
    }
  }

  /** Every argument of `s` as a plain piece. */
  function Plains(s: seq<string>): seq<Piece>
  {
    if s == [] then [] else [Plain(s[0])] + Plains(s[1..])
  }

  /** Plain pieces cover their arguments and keep them, and request nothing. */
  lemma {:induction false} PlainsSpec(s: seq<string>)
    ensures |Plains(s)| == |s| && forall k :: 0 <= k < |s| ==> Plains(s)[k] == Plain(s[k])
    ensures Flatten(Plains(s)) == s && Remaining(Plains(s)) == s && Preloads(Plains(s)) == []
  {
    if s != [] {
      var rest := Plains(s[1..]);
      PlainsSpec(s[1..]);
      FlattenCons(Plain(s[0]), rest);
      assert s == [s[0]] + s[1..];
      forall k | 1 <= k < |s|
        ensures Plains(s)[k] == Plain(s[k])
      {
        assert Plains(s)[k] == rest[k - 1];
      }
    }
  }

  /** A vector in which no argument matches the pattern passes through
      unchanged and triggers no preload: it is segmented into plain pieces
      only, since that segmentation obeys the rules and there is only one. */
  lemma NoConfigTokensUnchanged(s: seq<string>)
    requires Unmatched(s)
    ensures ScanRemaining(s) == s && ScanPreloads(s) == []
  {
    var ps := Plains(s);
    PlainsSpec(s);
    assert Segmentation(s, ps) by {
      forall k | 0 <= k < |ps|
        ensures PieceRule(ps[k])
      {
        assert ps[k] == Plain(s[k]);
      }
    }
    assert s[0..] == s;
    SegmentationUnique(s, 0, ps);
  }

  /** Scanning is idempotent: scanning the filtered vector again gives it back
      unchanged and preloads nothing. */
  lemma ScanIdempotent(argv: seq<string>)
    ensures ScanRemaining(ScanRemaining(argv)) == ScanRemaining(argv)
    ensures ScanPreloads(ScanRemaining(argv)) == []
  {
    RemainingUnmatched(argv, 0);
    NoConfigTokensUnchanged(ScanRemaining(argv));
  }

  /** Every preloaded path is non-empty. */
  lemma {:induction false} PreloadsNonEmpty(argv: seq<string>, i: nat)
    requires i <= |argv|
    ensures forall k :: 0 <= k < |Preloads(PiecesFrom(argv, i))| ==> Preloads(PiecesFrom(argv, i))[k] != ""
    decreases |argv| - i
  {
    if i < |argv| {
      var p := PieceAt(argv, i);
      var next := i + |Covered(p)|;
      var rest := PiecesFrom(argv, next);
      assert PiecesFrom(argv, i) == [p] + rest;
      FlattenCons(p, rest);
      PreloadsNonEmpty(argv, next);
    }
  }
}
