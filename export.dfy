/**
 * The names of the two download files: a fixed prefix, the chosen days
 * joined by underscores, and the extension of the format.
 */
module Export {

  const Separator: char := '_'
  const Prefix: string := "Lignes_Roulement_"
  const ExcelExtension: string := ".xlsx"
  const CsvExtension: string := ".csv"

  /** The parts glued with one separator between neighbours, as `'_'.join(parts)`. */
  function Join(parts: seq<string>): string {
    if |parts| == 0 then ""
    else if |parts| == 1 then parts[0]
    else parts[0] + [Separator] + Join(parts[1..])
  }

  /** The position of the first separator. */
  function SeparatorAt(s: string): (k: nat)
    requires Separator in s
    ensures k < |s| && s[k] == Separator && Separator !in s[..k]
  {
    if s[0] == Separator then 0 else 1 + SeparatorAt(s[1..])
  }

  /** The pieces between separators, as `s.split('_')`: always at least one. */
  function Split(s: string): (parts: seq<string>)
    ensures |parts| >= 1
    ensures forall i :: 0 <= i < |parts| ==> Separator !in parts[i]
    decreases |s|
  {
    if Separator in s then
      var k := SeparatorAt(s);
      [s[..k]] + Split(s[k + 1..])
    else [s]
  }

  /** Joining the pieces of a split gives the string back. */
  lemma {:induction false} JoinOfSplit(s: string)
    ensures Join(Split(s)) == s
    decreases |s|
  {
    if Separator in s {
      var k := SeparatorAt(s);
      var rest := s[k + 1..];
      JoinOfSplit(rest);
      assert Split(s) == [s[..k]] + Split(rest);
      assert ([s[..k]] + Split(rest))[1..] == Split(rest);
      assert s == s[..k] + [Separator] + rest;
    }
  }

  /** Splitting a join of separator-free parts gives the parts back. */
  lemma {:induction false} SplitOfJoin(parts: seq<string>)
    requires |parts| >= 1
    requires forall i :: 0 <= i < |parts| ==> Separator !in parts[i]
    ensures Split(Join(parts)) == parts
  {
    if |parts| > 1 {
      var head, rest := parts[0], Join(parts[1..]);
      var s := head + [Separator] + rest;
      assert Join(parts) == s;
      SeparatorAfter(head, rest);
      assert s[..|head|] == head && s[|head| + 1..] == rest;
      SplitOfJoin(parts[1..]);
      assert parts == [head] + parts[1..];
    }
  }

  /** The first separator of `head + "_" + rest` is the one after `head`. */
  lemma {:induction false} SeparatorAfter(head: string, rest: string)
    requires Separator !in head
    ensures SeparatorAt(head + [Separator] + rest) == |head|
  {
    if head != [] {
      var s := head + [Separator] + rest;
      assert s[1..] == head[1..] + [Separator] + rest;
      SeparatorAfter(head[1..], rest);
    }
  }

  /** The file name of a download, for the chosen days and an extension. */
  function ExportName(days: seq<string>, extension: string): string {
    Prefix + Join(days) + extension
  }

  function ExcelName(days: seq<string>): string {
    ExportName(days, ExcelExtension)
  }

  function CsvName(days: seq<string>): string {
    ExportName(days, CsvExtension)
  }

  /** The two file names share everything but the extension. */
  lemma NamesDifferOnlyInExtension(days: seq<string>)
    ensures var excel, csv := ExcelName(days), CsvName(days);
      && excel[..|excel| - |ExcelExtension|] == csv[..|csv| - |CsvExtension|]
      && excel[|excel| - |ExcelExtension|..] == ExcelExtension
      && csv[|csv| - |CsvExtension|..] == CsvExtension
      && excel != csv
  {
    var stem := Prefix + Join(days);
    assert ExcelName(days) == stem + ExcelExtension;
    assert CsvName(days) == stem + CsvExtension;
    assert ExcelName(days)[|stem|..] == ExcelExtension;
    assert CsvName(days)[|stem|..] == CsvExtension;
  }

  /**
   * When no chosen day holds an underscore, the name determines the days:
   * two selections with the same file name are the same selection.
   */
  lemma NameDeterminesDays(days: seq<string>, others: seq<string>, extension: string)
    requires |days| >= 1 && |others| >= 1
    requires forall i :: 0 <= i < |days| ==> Separator !in days[i]
    requires forall i :: 0 <= i < |others| ==> Separator !in others[i]
    requires ExportName(days, extension) == ExportName(others, extension)
    ensures days == others
  {
    var a, b := Prefix + Join(days) + extension, Prefix + Join(others) + extension;
    assert a[|Prefix|..|a| - |extension|] == Join(days);
    assert b[|Prefix|..|b| - |extension|] == Join(others);
    SplitOfJoin(days);
    SplitOfJoin(others);
  }
}
