/**
 * The two decisions of the entry point that are not I/O: which output fields
 * are used (built-in default, configuration file, `--fields` option), and how
 * the outcome of a run maps to the process exit code.
 */
module VillagesEvents {
  import opened Wrappers
  import opened Text
  import Config

  // ---------------------------------------------------------------------------
  // Output fields

  /** A non-empty name with no whitespace at either end. */
  predicate IsStrippedName(name: string)
  {
    name != [] && !IsSpace(name[0]) && !IsSpace(name[|name| - 1])
  }

  /** Every piece stripped of surrounding whitespace, empty results dropped. */
  function StrippedPieces(pieces: seq<string>): (r: seq<string>)
    ensures |r| <= |pieces|
  {
    if pieces == [] then []
    else
      var f := Strip(pieces[0]);
      if f != [] then [f] + StrippedPieces(pieces[1..]) else StrippedPieces(pieces[1..])
  }

  /** Every kept piece is a non-empty name with no whitespace at either end. */
  lemma {:induction false} StrippedPiecesNames(pieces: seq<string>)
    ensures forall name :: name in StrippedPieces(pieces) ==> IsStrippedName(name)
  {
    if pieces != [] {
      StrippedPiecesNames(pieces[1..]);
      var f := Strip(pieces[0]);
      if f != [] {
        assert IsStrippedName(f);
        assert StrippedPieces(pieces) == [f] + StrippedPieces(pieces[1..]);
      } else {
        assert StrippedPieces(pieces) == StrippedPieces(pieces[1..]);
      }
    }
  }

  /** The `--fields` value read as `[f.strip() for f in s.split(',') if f.strip()]`. */
  function ParseFieldList(s: string): (r: seq<string>)
    ensures forall name :: name in r ==> IsStrippedName(name)
  {
    StrippedPiecesNames(Split(s, ','));
    StrippedPieces(Split(s, ','))
  }

  /** No parsed field contains a comma. */
  lemma ParsedFieldsHaveNoComma(s: string)
    ensures forall name :: name in ParseFieldList(s) ==> ',' !in name
  {
    NoCommaPieces(Split(s, ','));
  }

  lemma {:induction false} NoCommaPieces(pieces: seq<string>)
    requires forall i :: 0 <= i < |pieces| ==> ',' !in pieces[i]
    ensures forall name :: name in StrippedPieces(pieces) ==> ',' !in name
  {
    if pieces != [] {
      NoCommaPieces(pieces[1..]);
      StripInfix(pieces[0]);
      OccursAtWithout(pieces[0], Strip(pieces[0]), |pieces[0]| - |StripLeft(pieces[0])|, ',');
    }
  }

  /** A list of non-empty, stripped, comma-free names written with commas reads back as the same list. */
  lemma {:induction false} ParseFieldListJoin(fields: seq<string>)
    requires |fields| >= 1
    requires forall name :: name in fields ==> IsStrippedName(name) && ',' !in name
    ensures ParseFieldList(Join(fields, ",")) == fields
  {
    SplitJoin(fields, ',');
    StrippedPiecesKeeps(fields);
  }

  lemma {:induction false} StrippedPiecesKeeps(fields: seq<string>)
    requires forall name :: name in fields ==> IsStrippedName(name)
    ensures StrippedPieces(fields) == fields
  {
    if fields != [] {
      var rest := fields[1..];
      assert fields[0] in fields && IsStrippedName(fields[0]);
      StripStripped(fields[0]);
      assert forall name :: name in rest ==> name in fields;
      StrippedPiecesKeeps(rest);
      assert StrippedPieces(fields) == [fields[0]] + rest;
      assert fields == [fields[0]] + rest;
    }
  }

  /** `[f for f in cli_fields if f in AVAILABLE_FIELDS]`, with the list of known fields as `known`. */
  function KeepKnown(fields: seq<string>, known: seq<string>): (r: seq<string>)
    ensures |r| <= |fields|
  {
    if fields == [] then []
    else if fields[0] in known then [fields[0]] + KeepKnown(fields[1..], known)
    else KeepKnown(fields[1..], known)
  }

  /**
   * The kept fields are exactly the known ones, each as often as it was given
   * (duplicates stay).
   */
  lemma {:induction false} KeepKnownExactly(fields: seq<string>, known: seq<string>)
    ensures forall f :: f in KeepKnown(fields, known) <==> f in fields && f in known
    ensures forall f :: multiset(KeepKnown(fields, known))[f] == (if f in known then multiset(fields)[f] else 0)
  {
    if fields != [] {
      KeepKnownExactly(fields[1..], known);
      assert fields == [fields[0]] + fields[1..];
      assert multiset(fields) == multiset{fields[0]} + multiset(fields[1..]);
    }
  }

  /** Filtering distributes over concatenation, so the given order is kept. */
  lemma {:induction false} KeepKnownAppend(a: seq<string>, b: seq<string>, known: seq<string>)
    ensures KeepKnown(a + b, known) == KeepKnown(a, known) + KeepKnown(b, known)
  {
    if a != [] {
      assert (a + b)[0] == a[0] && (a + b)[1..] == a[1..] + b;
      KeepKnownAppend(a[1..], b, known);
    } else {
      assert a + b == b;
    }
  }

  /** The valid fields named by a `--fields` value. */
  function CliFields(cli: string): seq<string>
  {
    KeepKnown(ParseFieldList(cli), Config.AvailableFields)
  }

  /**
   * The output-field precedence of `main`: valid `--fields` entries win; otherwise
   * the configuration's list (which is the built-in default when the file names none).
   */
  method ResolveOutputFields(configFields: seq<string>, cliFields: Option<string>) returns (outputFields: seq<string>)
    ensures cliFields.Some? && CliFields(cliFields.value) != [] ==> outputFields == CliFields(cliFields.value)
    ensures (cliFields.None? || CliFields(cliFields.value) == []) ==> outputFields == configFields
  {
    outputFields := Config.DefaultOutputFields;
    if configFields != Config.DefaultOutputFields {
      outputFields := configFields;
    }
    if cliFields.Some? && cliFields.value != "" {
      var parsed := ParseFieldList(cliFields.value);
      var valid := KeepKnown(parsed, Config.AvailableFields);
      if valid != [] {
        outputFields := valid;
      }
    } else if cliFields.Some? {
      assert Split("", ',') == [""];
      assert StrippedPieces([""]) == [];
    }
  }

  // ---------------------------------------------------------------------------
  // Exit codes

  /** How a run ends: argparse's `SystemExit`, normal completion, an application error, or any other exception. */
  datatype Outcome = ArgumentExit(code: int) | Completed | ApplicationError | UnexpectedError

  /** `main`'s return value: 0 on success or `--help`, 2 on a bad command line, 1 on any error after parsing. */
  function ExitCode(outcome: Outcome): (r: int)
    ensures r == 0 <==> outcome.Completed? || (outcome.ArgumentExit? && outcome.code == 0)
    ensures r == 2 <==> outcome.ArgumentExit? && outcome.code != 0
    ensures r == 1 <==> outcome.ApplicationError? || outcome.UnexpectedError?
  {
    match outcome
    case ArgumentExit(code) => if code != 0 then 2 else 0
    case Completed => 0
    case ApplicationError => 1
    case UnexpectedError => 1
  }
}
