/**
 * The `--group-by` option of fss: the `GroupBy` enum and `parse_group_by`,
 * which accepts any case-insensitive prefix of an option name.
 */
module Cli {
  import opened Wrappers
  import opened Ascii

  /** How the sizes are grouped. */
  datatype GroupBy = Extension | Type | FileName | Directory

  /** The `#[default]` variant of `GroupBy`. */
  const DefaultGroupBy: GroupBy := Extension

  /** The `default_value` of the `--group-by` argument, parsed like any user input. */
  const DefaultGroupByArgument: string := "extension"

  /** The message of the error `parse_group_by` returns, spelled as in the source. */
  const GroupByError: string := "Group does is not one of [extension, type, filename, directory]"

  /** The option name whose prefixes select each variant. */
  function OptionName(g: GroupBy): string {
    match g
    case Extension => "extension"
    case Type => "type"
    case FileName => "filename"
    case Directory => "directory"
  }

  /** The order in which `parse_group_by` tries the names. */
  function Rank(g: GroupBy): nat {
    match g
    case Extension => 0
    case Type => 1
    case FileName => 2
    case Directory => 3
  }

  /** `s`, lower-cased, is a prefix of the name of `g`. */
  predicate Selects(s: string, g: GroupBy) {
    ToLowercase(s) <= OptionName(g)
  }

  /**
   * `parse_group_by`: the first variant, in the order extension, type,
   * filename, directory, whose name starts with the lower-cased input;
   * an error when there is none.
   */
  function ParseGroupBy(s: string): (r: Result<GroupBy, string>)
    ensures r.Ok? <==> exists g :: Selects(s, g)
    ensures r.Ok? ==> Selects(s, r.value)
    ensures r.Ok? ==> forall g :: Rank(g) < Rank(r.value) ==> !Selects(s, g)
    ensures r.Err? ==> r.error == GroupByError
  {
    var low := ToLowercase(s);
    if low <= "extension" then assert Selects(s, Extension); Ok(Extension)
    else if low <= "type" then assert Selects(s, Type); Ok(Type)
    else if low <= "filename" then assert Selects(s, FileName); Ok(FileName)
    else if low <= "directory" then assert Selects(s, Directory); Ok(Directory)
    else Err(GroupByError)
  }

  /** Option names differ in their first letter, so a non-empty input selects at most one variant. */
  lemma SelectsAtMostOne(s: string, g: GroupBy, h: GroupBy)
    requires s != ""
    requires Selects(s, g) && Selects(s, h)
    ensures g == h
  {
    var low := ToLowercase(s);
    assert low[0] == OptionName(g)[0] && low[0] == OptionName(h)[0];
  }

  /** A non-empty input that is a prefix of a name, in any case, parses to that name's variant. */
  lemma ParseGroupByOfPrefix(s: string, g: GroupBy)
    requires s != "" && Selects(s, g)
    ensures ParseGroupBy(s) == Ok(g)
  {
    SelectsAtMostOne(s, g, ParseGroupBy(s).value);
  }

  /** The empty input is a prefix of every name, and the first one tried wins. */
  lemma ParseGroupByEmpty()
    ensures ParseGroupBy("") == Ok(Extension)
  {
  }

  /** Parsing looks at the input only through its lower-cased form. */
  lemma ParseGroupByCaseInsensitive(a: string, b: string)
    requires ToLowercase(a) == ToLowercase(b)
    ensures ParseGroupBy(a) == ParseGroupBy(b)
  {
  }

  /** The full name of each variant parses back to it. */
  lemma ParseGroupByOptionName(g: GroupBy)
    ensures ParseGroupBy(OptionName(g)) == Ok(g)
  {
    LowercaseFixpoint(OptionName(g));
    ParseGroupByOfPrefix(OptionName(g), g);
  }

  /** The default argument value parses to the default variant. */
  lemma ParseGroupByDefault()
    ensures ParseGroupBy(DefaultGroupByArgument) == Ok(DefaultGroupBy)
  {
    ParseGroupByOptionName(Extension);
  }

  /**
   * One-letter, partial and mixed-case inputs select the variants they start;
   * an input longer than every name it starts like, or one no name starts
   * with, is the error.
   */
  lemma ParseGroupByExamples(s: string)
    ensures s == "e" ==> ParseGroupBy(s) == Ok(Extension)
    ensures s == "T" ==> ParseGroupBy(s) == Ok(Type)
    ensures s == "file" ==> ParseGroupBy(s) == Ok(FileName)
    ensures s == "DiR" ==> ParseGroupBy(s) == Ok(Directory)
    ensures s == "types" ==> ParseGroupBy(s) == Err(GroupByError)
    ensures s == "x" ==> ParseGroupBy(s) == Err(GroupByError)
  {
    if s == "e" {
      ParseGroupByOfPrefix(s, Extension);
    } else if s == "T" {
      assert ToLowercase(s) == "t";
      ParseGroupByOfPrefix(s, Type);
    } else if s == "file" {
      assert ToLowercase(s) == "file";
      ParseGroupByOfPrefix(s, FileName);
    } else if s == "DiR" {
      assert ToLowercase(s) == "dir";
      ParseGroupByOfPrefix(s, Directory);
    } else if s == "types" {
      assert ToLowercase(s) == "types";
    } else if s == "x" {
      assert ToLowercase(s) == "x";
    }
  }
}
