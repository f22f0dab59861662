/**
 * Where the mmap store keeps its files: one file per metric and per
 * process, `metric_<name>___<pid>.mmap`, in the store's directory, and
 * which directory entries the exporter reads for a metric.
 */
module StoreFiles {

  predicate IsDigit(c: char) {
    '0' <= c <= '9'
  }

  predicate AllDigits(s: string) {
    forall i :: 0 <= i < |s| ==> IsDigit(s[i])
  }

  function DigitChar(d: nat): (c: char)
    requires d < 10
    ensures IsDigit(c)
  {
    ('0' as int + d) as char
  }

  /** `pid.to_s`: the decimal digits of `n`, without leading zeros. */
  function Decimal(n: nat): (s: string)
    ensures |s| >= 1 && AllDigits(s)
    ensures n >= 10 ==> s[0] != '0'
  {
    if n < 10 then [DigitChar(n)] else Decimal(n / 10) + [DigitChar(n % 10)]
  }

  /** The number a string of decimal digits denotes. */
  function DecimalValue(s: string): nat
    requires AllDigits(s)
  {
    if s == [] then 0 else 10 * DecimalValue(s[..|s| - 1]) + (s[|s| - 1] as int - '0' as int)
  }

  /** The digits read back give the process id they were written from. */
  lemma {:induction false} DecimalRoundTrip(n: nat)
    ensures DecimalValue(Decimal(n)) == n
  {
    if n >= 10 {
      var s := Decimal(n);
      assert s[..|s| - 1] == Decimal(n / 10);
      DecimalRoundTrip(n / 10);
    }
  }

  const Prefix: string := "metric_"
  const Separator: string := "___"
  const Extension: string := ".mmap"

  /** The file name part before the process id. */
  function MetricPrefix(name: string): string
  {
    Prefix + name + Separator
  }

  /** `"metric_#{metric_name}___#{process_id}.mmap"`. */
  function FileName(name: string, pid: nat): string
  {
    MetricPrefix(name) + Decimal(pid) + Extension
  }

  /** `File.join(dir, f)`: one `/` between the two, none added after a trailing one. */
  function JoinPath(dir: string, f: string): string
  {
    if dir != [] && dir[|dir| - 1] == '/' then dir + f else dir + "/" + f
  }

  /**
   * The joined path names `f` inside `dir`: it starts with `dir`, ends in a
   * slash followed by `f`, and adds at most that one slash.
   */
  lemma JoinPathBaseName(dir: string, f: string)
    ensures var p := JoinPath(dir, f); |p| > |f| && p[|p| - |f| - 1] == '/' && p[|p| - |f|..] == f
    ensures var p := JoinPath(dir, f); |dir| <= |p| - |f| <= |dir| + 1 && p[..|dir|] == dir
  {
    var p := JoinPath(dir, f);
    if dir != [] && dir[|dir| - 1] == '/' {
      assert p[|p| - |f| - 1] == dir[|dir| - 1];
      assert p[|p| - |f|..] == f;
    } else {
      assert p == (dir + "/") + f;
      assert p[|p| - |f|..] == f;
    }
  }

  /**
   * The path of the file process `pid` writes for metric `name` in `dir`:
   * inside `dir`, and one of the files the metric owns.
   */
  function ProcessFile(dir: string, name: string, pid: nat): (path: string)
    ensures var base := FileName(name, pid);
      && |path| > |base| && path[|path| - |base| - 1] == '/' && path[|path| - |base|..] == base
      && OwnedBy(name, base)
  {
    JoinPathBaseName(dir, FileName(name, pid));
    OwnedByOwnFiles(name, pid);
    JoinPath(dir, FileName(name, pid))
  }

  predicate StartsWith(s: string, p: string) {
    |p| <= |s| && s[..|p|] == p
  }

  /**
   * `Dir.glob(File.join(dir, "metric_#{metric_name}___*"))`, on the name of
   * an entry of `dir`: the name starts with the metric's prefix.
   */
  predicate GlobMatches(name: string, base: string) {
    StartsWith(base, MetricPrefix(name))
  }

  /**
   * The files the metric's processes write and no others: the metric's
   * prefix, the decimal digits of a process id, `.mmap`.
   */
  predicate OwnedBy(name: string, base: string) {
    var p := MetricPrefix(name);
    && |p| + |Extension| < |base|
    && base[..|p|] == p
    && base[|base| - |Extension|..] == Extension
    && AllDigits(base[|p|..|base| - |Extension|])
  }

  /** Every file a process writes for the metric is among those the glob selects. */
  lemma GlobMatchesOwnFiles(name: string, pid: nat)
    ensures GlobMatches(name, FileName(name, pid))
  {
    var f := FileName(name, pid);
    assert f[..|MetricPrefix(name)|] == MetricPrefix(name);
  }

  /**
   * The glob also selects the files of a second metric whose name is the
   * first one followed by `___`: metric `foo` reads the values of metric
   * `foo___bar`.
   */
  lemma GlobMatchesLongerName(name: string, suffix: string, pid: nat)
    ensures name + Separator + suffix != name
    ensures GlobMatches(name, FileName(name + Separator + suffix, pid))
  {
    var f := FileName(name + Separator + suffix, pid);
    var p := MetricPrefix(name);
    assert |name + Separator + suffix| > |name|;
    assert f == p + (suffix + Separator + Decimal(pid) + Extension);
    assert f[..|p|] == p;
  }

  /** Every file a process writes for the metric is owned by it. */
  lemma OwnedByOwnFiles(name: string, pid: nat)
    ensures OwnedBy(name, FileName(name, pid))
  {
    var f := FileName(name, pid);
    var p := MetricPrefix(name);
    var d := Decimal(pid);
    assert f == p + d + Extension;
    assert f[..|p|] == p;
    assert f[|f| - |Extension|..] == Extension;
    assert f[|p|..|f| - |Extension|] == d;
  }

  /** A metric owns the files of a process exactly when they are its own: no other metric's files match. */
  lemma OwnedByExactly(name: string, other: string, pid: nat)
    ensures OwnedBy(name, FileName(other, pid)) <==> name == other
  {
    if name == other {
      OwnedByOwnFiles(name, pid);
    } else {
      NotOwnedByOtherName(name, other, pid);
    }
  }

  /**
   * The character just before the process id of a file name is `_`: it
   * cannot sit among the digits another metric's name would place there.
   */
  lemma NotOwnedByOtherName(name: string, other: string, pid: nat)
    requires name != other
    ensures !OwnedBy(name, FileName(other, pid))
  {
    var s := FileName(other, pid);
    var p := MetricPrefix(name);
    var q := MetricPrefix(other);
    var d := Decimal(pid);
    assert s == q + d + Extension;
    assert |q| == 10 + |other| && |p| == 10 + |name|;
    if |p| + |Extension| < |s| {
      if |name| > |other| {
        // the last `_` of `name`'s prefix falls on a digit of `pid`
        var k := |p| - 1;
        assert s[k] == d[k - |q|];
        assert s[..|p|][k] != p[k];
      } else if |name| < |other| {
        // the last `_` of `other`'s prefix falls among the digits `name` expects
        var k := |q| - 1;
        assert s[k] == q[k] == '_';
        var mid := s[|p|..|s| - |Extension|];
        assert mid[k - |p|] == s[k];
      } else {
        var i :| 0 <= i < |name| && name[i] != other[i];
        assert p[7 + i] == name[i] && q[7 + i] == other[i];
        assert s[..|p|][7 + i] == q[7 + i];
      }
    }
  }
}
