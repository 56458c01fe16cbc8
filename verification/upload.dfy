/**
 * The upload filter allowed_file: a file name is accepted when it contains a '.' and
 * the text after its last '.', lower-cased, is one of the allowed extensions.
 */
module Upload {
  import opened Wrappers

  /** The extensions an upload may have. */
  const AllowedExtensions: set<string> := {"csv"}

  /** Lower-casing of one character; only 'A' .. 'Z' change. */
  function LowerChar(c: char): char {
    if 'A' <= c <= 'Z' then (c as int - 'A' as int + 'a' as int) as char else c
  }

  /** Lower-casing, character by character. */
  function Lower(s: string): (r: string)
    ensures |r| == |s|
    ensures forall i :: 0 <= i < |s| ==> r[i] == LowerChar(s[i])
  {
    seq(|s|, i requires 0 <= i < |s| => LowerChar(s[i]))
  }

  /** The position of the last occurrence of c in s, if any. */
  function LastIndex(s: string, c: char): (k: Option<nat>)
    ensures k.None? <==> c !in s
    ensures k.Some? ==> k.value < |s| && s[k.value] == c
    ensures k.Some? ==> forall j :: k.value < j < |s| ==> s[j] != c
    decreases |s|
  {
    if |s| == 0 then None
    else if s[|s| - 1] == c then Some(|s| - 1)
    else
      var k := LastIndex(s[..|s| - 1], c);
      assert forall j :: 0 <= j < |s| - 1 ==> s[j] == s[..|s| - 1][j];
      k
  }

  /**
   * Python's s.rsplit(sep, 1): the whole string when sep does not occur, otherwise the
   * text before and the text after the last sep.
   */
  function RSplitOnce(s: string, sep: char): (parts: seq<string>)
    ensures |parts| == 1 || |parts| == 2
    ensures |parts| == 2 <==> sep in s
    ensures |parts| == 1 ==> parts[0] == s
    ensures |parts| == 2 ==> parts[0] + [sep] + parts[1] == s && sep !in parts[1]
  {
    match LastIndex(s, sep)
    case None => [s]
    case Some(k) =>
      assert s == s[..k] + [sep] + s[k + 1..];
      [s[..k], s[k + 1..]]
  }

  /** Position k of s holds c, and no later position does. */
  predicate LastOccurrence(s: string, c: char, k: nat) {
    k < |s| && s[k] == c && forall j :: k < j < |s| ==> s[j] != c
  }

  /**
   * allowed_file: a '.' is present and the lower-cased text after the last one is an
   * allowed extension. Equivalently: some position is the last '.', and the text after
   * it, lower-cased, is an allowed extension.
   */
  function AllowedFile(filename: string): (ok: bool)
    ensures ok <==> exists k: nat :: LastOccurrence(filename, '.', k) && Lower(filename[k + 1..]) in AllowedExtensions
  {
    LastOccurrenceSplit(filename, '.');
    '.' in filename && Lower(RSplitOnce(filename, '.')[1]) in AllowedExtensions
  }

  /** The last occurrence is the one LastIndex finds, and rsplit's second piece is the text after it. */
  lemma LastOccurrenceSplit(s: string, c: char)
    ensures forall k: nat :: LastOccurrence(s, c, k) <==> LastIndex(s, c) == Some(k)
    ensures c in s ==> RSplitOnce(s, c)[1] == s[LastIndex(s, c).value + 1..]
  {
    forall k: nat | LastOccurrence(s, c, k) ensures LastIndex(s, c) == Some(k) {
      LastIndexUnique(s, c, k);
    }
  }

  /** Lower-casing never makes or removes a '.'. */
  lemma DotsKept(s: string)
    ensures forall i :: 0 <= i < |s| ==> (Lower(s)[i] == '.' <==> s[i] == '.')
  {
  }

  /**
   * allowed_file in closed form: the name ends in '.' followed by three characters
   * that lower-case to "csv". Names such as ".csv" and "a.b.CSV" pass; "csv", "data."
   * and "data.csv.txt" do not.
   */
  lemma AllowedFileIff(f: string)
    ensures AllowedFile(f) <==> |f| >= 4 && f[|f| - 4] == '.' && Lower(f[|f| - 3..]) == "csv"
  {
    if AllowedFile(f) {
      var parts := RSplitOnce(f, '.');
      assert Lower(parts[1]) == "csv";
      assert |parts[1]| == 3;
      assert f == parts[0] + ['.'] + parts[1];
      assert f[|f| - 3..] == parts[1];
      assert f[|f| - 4] == '.';
    }
    if |f| >= 4 && f[|f| - 4] == '.' && Lower(f[|f| - 3..]) == "csv" {
      var tail := f[|f| - 3..];
      DotsKept(tail);
      assert '.' !in tail by {
        forall i | 0 <= i < 3 ensures tail[i] != '.' {
          assert Lower(tail)[i] == "csv"[i];
        }
      }
      forall j | |f| - 4 < j < |f| ensures f[j] != '.' {
        assert f[j] == tail[j - (|f| - 3)];
      }
      LastIndexUnique(f, '.', |f| - 4);
    }
  }

  /** The last occurrence is the one position holding c with no c after it. */
  lemma LastIndexUnique(s: string, c: char, k: nat)
    requires k < |s| && s[k] == c
    requires forall j :: k < j < |s| ==> s[j] != c
    ensures LastIndex(s, c) == Some(k)
  {
    var r := LastIndex(s, c);
    assert r.Some?;
    assert !(r.value < k);
  }

  /** allowed_file does not depend on the case of the name. */
  lemma AllowedIgnoresCase(f: string)
    ensures AllowedFile(Lower(f)) == AllowedFile(f)
  {
    AllowedFileIff(f);
    AllowedFileIff(Lower(f));
    DotsKept(f);
    var g := Lower(f);
    if |f| >= 4 {
      assert Lower(g[|g| - 3..]) == Lower(f[|f| - 3..]);
    }
  }

  /** Concrete names that are accepted. */
  lemma AcceptedExamples()
    ensures AllowedFile("expenses.csv")
    ensures AllowedFile("REPORT.CSV")
    ensures AllowedFile(".csv")
  {
    LowerIsCsv("csv");
    LowerIsCsv("CSV");
    assert AllowedFile("expenses.csv") by {
      assert "expenses.csv"[9..] == "csv";
      AllowedFileIff("expenses.csv");
    }
    assert AllowedFile("REPORT.CSV") by {
      assert "REPORT.CSV"[7..] == "CSV";
      AllowedFileIff("REPORT.CSV");
    }
    assert AllowedFile(".csv") by {
      assert ".csv"[1..] == "csv";
      AllowedFileIff(".csv");
    }
  }

  lemma LowerIsCsv(t: string)
    requires |t| == 3 && LowerChar(t[0]) == 'c' && LowerChar(t[1]) == 's' && LowerChar(t[2]) == 'v'
    ensures Lower(t) == "csv"
  {
  }

  /** Concrete names that are refused. */
  lemma RefusedExamples()
    ensures !AllowedFile("csv")
    ensures !AllowedFile("data.csv.txt")
    ensures !AllowedFile("data.")
  {
    AllowedFileIff("csv");
    AllowedFileIff("data.csv.txt");
    AllowedFileIff("data.");
  }
}
