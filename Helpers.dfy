/**
 * The credentials-file line parser (Helpers.swift): keep the lines that start with the
 * credential prefix (ignoring case), split each at its first `=`, derive the key from the
 * lower-cased name by dropping the prefix and one more character, and fold the pairs into
 * a map in which a later line overrides an earlier one.
 */
module Helpers {
  import opened Wrappers
  import opened Text

  /** The index of the first `=` in a line, if there is one. */
  function FirstEquals(line: string): (r: Option<nat>)
    ensures r.Some? ==> r.value < |line| && line[r.value] == '=' && '=' !in line[..r.value]
    ensures r.None? ==> '=' !in line
  {
    if |line| == 0 then None
    else if line[0] == '=' then Some(0)
    else match FirstEquals(line[1..])
      case None => None
      case Some(i) =>
        assert line[..i + 1] == [line[0]] + line[1..][..i];
        Some(i + 1)
  }

  /** The number of `=` characters a line starts with. */
  function LeadingEquals(line: string): (n: nat)
    ensures n <= |line|
    ensures forall i :: 0 <= i < n ==> line[i] == '='
    ensures n < |line| ==> line[n] != '='
  {
    if |line| > 0 && line[0] == '=' then 1 + LeadingEquals(line[1..]) else 0
  }

  /** `split(separator: "=", maxSplits: 1)`, which omits empty pieces: leading `=` characters
      are skipped, the rest is cut at its first `=`, and an empty remainder is dropped. */
  function SplitOnce(line: string): (pieces: seq<string>)
    ensures |pieces| <= 2
    ensures forall i :: 0 <= i < |pieces| ==> |pieces[i]| > 0
    ensures |pieces| >= 1 ==> '=' !in pieces[0]
    ensures |pieces| == 2 ==> line == line[..LeadingEquals(line)] + pieces[0] + "=" + pieces[1]
  {
    var n := LeadingEquals(line);
    var rest := line[n..];
    if |rest| == 0 then []
    else match FirstEquals(rest)
      case None => [rest]
      case Some(i) =>
        if i + 1 == |rest| then [rest[..i]]
        else
          assert line == line[..n] + rest[..i] + "=" + rest[i + 1..];
          [rest[..i], rest[i + 1..]]
  }

  /** The split gives no piece exactly when the line is nothing but `=`s. */
  lemma SplitOnceNone(line: string)
    ensures |SplitOnce(line)| == 0 <==> LeadingEquals(line) == |line|
  {
  }

  /** The split gives two pieces exactly when an `=` follows the leading ones with something after it. */
  lemma SplitOnceTwo(line: string)
    ensures var n := LeadingEquals(line);
      |SplitOnce(line)| == 2 <==> n < |line| && '=' in line[n..|line| - 1]
  {
    var n := LeadingEquals(line);
    if n < |line| {
      var rest := line[n..];
      assert line[n..|line| - 1] == rest[..|rest| - 1];
      match FirstEquals(rest)
      case None =>
      case Some(i) =>
        if i + 1 < |rest| {
          assert rest[..|rest| - 1][i] == '=';
        } else {
          assert rest[..|rest| - 1] == rest[..i];
        }
    }
  }

  /** A single piece is the rest of the line after its leading `=`s, with at most a trailing `=` dropped. */
  lemma SplitOnceOne(line: string)
    ensures var p, n := SplitOnce(line), LeadingEquals(line);
      |p| == 1 ==> line == line[..n] + p[0] || line == line[..n] + p[0] + "="
  {
    var n := LeadingEquals(line);
    var rest := line[n..];
    if |rest| > 0 {
      if FirstEquals(rest).None? {
        assert SplitOnce(line) == [rest];
        assert line == line[..n] + rest;
      } else {
        var i := FirstEquals(rest).value;
        if i + 1 == |rest| {
          assert SplitOnce(line) == [rest[..i]];
          assert line == line[..n] + rest[..i] + "=";
        }
      }
    }
  }

  /** Leading separators are skipped rather than ending an empty first piece: the split of a line
      is the split of the line without its leading `=`s. */
  lemma LeadingSeparatorsSkipped(line: string)
    ensures SplitOnce(line) == SplitOnce(line[LeadingEquals(line)..])
  {
  }

  /** The filter: the lower-cased line starts with the lower-cased prefix. */
  predicate Kept(prefix: string, line: string)
  {
    StartsWith(Lower(line), Lower(prefix))
  }

  /** What the source needs of a kept line not to trap: the split yields two pieces (a name and
      a non-empty value), and the name is longer than the prefix, so that dropping
      `prefix.count + 1` characters stays inside it. */
  predicate WellFormed(prefix: string, line: string)
  {
    |SplitOnce(line)| == 2 && |prefix| < |SplitOnce(line)[0]|
  }

  predicate AllKeptWellFormed(prefix: string, lines: seq<string>)
  {
    forall j :: 0 <= j < |lines| && Kept(prefix, lines[j]) ==> WellFormed(prefix, lines[j])
  }

  /** The first piece of the split. */
  function NameOf(prefix: string, line: string): string
    requires WellFormed(prefix, line)
  {
    SplitOnce(line)[0]
  }

  /** The lower-cased name without its first `prefix.count + 1` characters. */
  function KeyOf(prefix: string, line: string): string
    requires WellFormed(prefix, line)
  {
    Lower(NameOf(prefix, line))[|prefix| + 1..]
  }

  /** The second piece of the split: everything after the name's `=`, verbatim. */
  function ValueOf(prefix: string, line: string): string
    requires WellFormed(prefix, line)
  {
    SplitOnce(line)[1]
  }

  /** The split is lossless: leading `=`s, name, `=`, value give the line back; the name holds no
      `=`, so a value may. A prefix that is non-empty and does not begin with `=` leaves no leading
      `=` on a kept line, and then the lower-cased name is the lower-cased prefix, one separator
      character of any kind, then the key. */
  lemma SplitLine(prefix: string, line: string)
    requires Kept(prefix, line) && WellFormed(prefix, line)
    ensures line == line[..LeadingEquals(line)] + NameOf(prefix, line) + "=" + ValueOf(prefix, line)
    ensures '=' !in NameOf(prefix, line)
    ensures |prefix| > 0 && prefix[0] != '=' ==> LeadingEquals(line) == 0
    ensures LeadingEquals(line) == 0 ==>
      Lower(NameOf(prefix, line)) == Lower(prefix) + [Lower(line)[|prefix|]] + KeyOf(prefix, line)
  {
    var name := NameOf(prefix, line);
    if |prefix| > 0 && prefix[0] != '=' {
      assert Lower(line)[0] == LowerChar(prefix[0]) != '=';
    }
    if LeadingEquals(line) == 0 {
      assert line[..|name|] == name;
      LowerNameShape(prefix, line, name);
    }
  }

  /** A name that begins the line, and is longer than a prefix the line starts with (ignoring case),
      lower-cases to the lower-cased prefix, one more character, then the rest. */
  lemma LowerNameShape(prefix: string, line: string, name: string)
    requires StartsWith(Lower(line), Lower(prefix))
    requires |prefix| < |name| <= |line| && line[..|name|] == name
    ensures Lower(name) == Lower(prefix) + [Lower(line)[|prefix|]] + Lower(name)[|prefix| + 1..]
  {
    var ln := Lower(name);
    assert ln == Lower(line)[..|name|];
    assert ln == ln[..|prefix|] + [ln[|prefix|]] + ln[|prefix| + 1..];
  }

  /** The lines the filter keeps, in file order. */
  function KeptLines(prefix: string, lines: seq<string>): (r: seq<string>)
    ensures |r| <= |lines|
    ensures forall l :: l in r ==> l in lines && Kept(prefix, l)
    ensures forall l :: l in lines && Kept(prefix, l) ==> l in r
  {
    if |lines| == 0 then []
    else
      var init := lines[..|lines| - 1];
      var last := lines[|lines| - 1];
      assert forall l :: l in lines ==> l in init || l == last;
      KeptLines(prefix, init) + (if Kept(prefix, last) then [last] else [])
  }

  /** The filter keeps file order and repeated lines: a line appended to the file is appended to
      the kept lines exactly when it is kept. */
  lemma KeptLinesSnoc(prefix: string, lines: seq<string>, line: string)
    ensures KeptLines(prefix, lines + [line]) == KeptLines(prefix, lines) + (if Kept(prefix, line) then [line] else [])
  {
  }

  /** The `reduce` with `merging { (_, new) in new }`: each kept line overrides its key. */
  function Merge(prefix: string, kept: seq<string>): map<string, string>
    requires forall l :: l in kept ==> WellFormed(prefix, l)
  {
    if |kept| == 0 then map[]
    else
      var init, last := kept[..|kept| - 1], kept[|kept| - 1];
      Merge(prefix, init)[KeyOf(prefix, last) := ValueOf(prefix, last)]
  }

  /** Every kept line contributes its key, no other key appears, and the last line's pair is on top. */
  lemma {:induction false} MergeKeys(prefix: string, kept: seq<string>)
    requires forall l :: l in kept ==> WellFormed(prefix, l)
    ensures forall l :: l in kept ==> KeyOf(prefix, l) in Merge(prefix, kept)
    ensures forall k :: k in Merge(prefix, kept) ==> exists l :: l in kept && KeyOf(prefix, l) == k
    ensures |kept| > 0 ==>
      Merge(prefix, kept)[KeyOf(prefix, kept[|kept| - 1])] == ValueOf(prefix, kept[|kept| - 1])
  {
    if |kept| > 0 {
      var init, last := kept[..|kept| - 1], kept[|kept| - 1];
      assert kept == init + [last];
      MergeKeys(prefix, init);
      var m := Merge(prefix, kept);
      assert m == Merge(prefix, init)[KeyOf(prefix, last) := ValueOf(prefix, last)];
      forall l | l in kept ensures KeyOf(prefix, l) in m {
        if l != last { assert l in init; }
      }
      forall k | k in m ensures exists l :: l in kept && KeyOf(prefix, l) == k {
        if k == KeyOf(prefix, last) {
          assert last in kept;
        } else {
          var l :| l in init && KeyOf(prefix, l) == k;
          assert l in kept;
        }
      }
    }
  }

  /** `extractEnvironmentVariablesFromFile`; `file` is the file's lines, or None when it cannot be read. */
  function ExtractEnvironmentVariables(prefix: string, file: Option<seq<string>>): (r: Option<map<string, string>>)
    requires file.Some? ==> AllKeptWellFormed(prefix, file.value)
    ensures r.None? <==> file.None?
    ensures file.Some? && (forall l :: l in file.value ==> !Kept(prefix, l)) ==> r == Some(map[])
  {
    match file
    case None => None
    case Some(lines) =>
      var kept := KeptLines(prefix, lines);
      assert forall l :: l in kept ==> WellFormed(prefix, l) by {
        forall l | l in kept ensures WellFormed(prefix, l) {
          var j :| 0 <= j < |lines| && lines[j] == l;
        }
      }
      assert (forall l :: l in lines ==> !Kept(prefix, l)) ==> |kept| == 0 by {
        if |kept| > 0 { assert kept[0] in kept; }
      }
      Some(Merge(prefix, kept))
  }

  /** Keeping a line appended at the end of the file only adds its own pair, on top. */
  lemma {:induction false} ExtractSnoc(prefix: string, lines: seq<string>, line: string)
    requires AllKeptWellFormed(prefix, lines + [line])
    ensures AllKeptWellFormed(prefix, lines)
    ensures ExtractEnvironmentVariables(prefix, Some(lines + [line])).value ==
      if Kept(prefix, line) then ExtractEnvironmentVariables(prefix, Some(lines)).value[KeyOf(prefix, line) := ValueOf(prefix, line)]
      else ExtractEnvironmentVariables(prefix, Some(lines)).value
  {
    var all := lines + [line];
    assert forall j :: 0 <= j < |lines| ==> lines[j] == all[j];
    assert all[..|all| - 1] == lines;
    var kept := KeptLines(prefix, lines);
    if Kept(prefix, line) {
      assert KeptLines(prefix, all) == kept + [line];
      assert (kept + [line])[..|kept|] == kept;
    } else {
      assert KeptLines(prefix, all) == kept;
    }
  }

  /** A key is in the result exactly when some kept line yields it. */
  lemma {:induction false} ResultKeys(prefix: string, lines: seq<string>, k: string)
    requires AllKeptWellFormed(prefix, lines)
    ensures k in ExtractEnvironmentVariables(prefix, Some(lines)).value <==>
      exists j :: 0 <= j < |lines| && Kept(prefix, lines[j]) && KeyOf(prefix, lines[j]) == k
  {
    if |lines| > 0 {
      var init, last := lines[..|lines| - 1], lines[|lines| - 1];
      assert lines == init + [last];
      ExtractSnoc(prefix, init, last);
      ResultKeys(prefix, init, k);
      assert forall j :: 0 <= j < |init| ==> init[j] == lines[j];
    }
  }

  /** Setting a different key leaves a key's entry as it was. */
  lemma UpdateOtherKey(m: map<string, string>, k': string, v': string, k: string, v: string)
    requires k in m && m[k] == v && k' != k
    ensures k in m[k' := v'] && m[k' := v'][k] == v
  {
  }

  /** The value of a key is that of the LAST kept line yielding it. */
  lemma {:induction false} LastLineWins(prefix: string, lines: seq<string>, j: nat)
    requires AllKeptWellFormed(prefix, lines)
    requires j < |lines| && Kept(prefix, lines[j])
    requires forall j' :: j < j' < |lines| && Kept(prefix, lines[j']) ==> KeyOf(prefix, lines[j']) != KeyOf(prefix, lines[j])
    ensures var m := ExtractEnvironmentVariables(prefix, Some(lines)).value;
      KeyOf(prefix, lines[j]) in m && m[KeyOf(prefix, lines[j])] == ValueOf(prefix, lines[j])
  {
    var init, last := lines[..|lines| - 1], lines[|lines| - 1];
    assert lines == init + [last];
    ExtractSnoc(prefix, init, last);
    if j < |init| {
      assert forall i :: 0 <= i < |init| ==> init[i] == lines[i];
      LastLineWins(prefix, init, j);
      if Kept(prefix, last) {
        UpdateOtherKey(ExtractEnvironmentVariables(prefix, Some(init)).value, KeyOf(prefix, last), ValueOf(prefix, last),
                       KeyOf(prefix, lines[j]), ValueOf(prefix, lines[j]));
      }
    }
  }
}
