/**
 * The class autoloader registered in zhsh-litres.php: a class of the plugin's namespace is looked
 * up as includes/class-<name>.php, with underscores turned into dashes and the name lower-cased.
 */
module Autoload {
  import opened Wrappers
  import opened PhpStrings

  /** The namespace prefix `ZhSh\Litres\`. */
  const PREFIX: string := "ZhSh\\Litres\\"

  /** `strncmp($a, $b, $n) === 0`: the first `n` bytes agree, and neither string ends earlier than the other inside them. */
  predicate StrncmpEqual(a: string, b: string, n: nat) {
    a[..Min(n, |a|)] == b[..Min(n, |b|)]
  }

  /** `str_replace('_', '-', $s)`. */
  function DashesForUnderscores(s: string): (r: string)
    ensures |r| == |s|
    ensures forall k :: 0 <= k < |s| ==> r[k] == (if s[k] == '_' then '-' else s[k])
  {
    seq(|s|, k requires 0 <= k < |s| => if s[k] == '_' then '-' else s[k])
  }

  /** `strtolower($s)` of PHP 8.2+, or under the default C locale: ASCII letters only. */
  function Lower(s: string): (r: string)
    ensures |r| == |s|
    ensures forall k :: 0 <= k < |s| ==> r[k] == LowerChar(s[k])
  {
    seq(|s|, k requires 0 <= k < |s| => LowerChar(s[k]))
  }

  /** The file-name stem a relative class name maps to. */
  function Stem(relative: string): string {
    Lower(DashesForUnderscores(relative))
  }

  /** The file the autoloader would require for `className`, or None when it returns early. */
  function ClassFile(className: string, pluginDir: string): Option<string> {
    var len := |PREFIX|;
    if !StrncmpEqual(PREFIX, className, len) then None
    else
      var relative := className[len..];
      Some(pluginDir + "includes/" + "class-" + Stem(relative) + ".php")
  }

  /** What the autoloader requires: the mapped file, only if it exists. */
  function Autoloaded(className: string, pluginDir: string, existing: set<string>): (r: Option<string>)
    ensures r.Some? <==> ClassFile(className, pluginDir).Some? && ClassFile(className, pluginDir).value in existing
    ensures r.Some? ==> r == ClassFile(className, pluginDir)
  {
    match ClassFile(className, pluginDir)
    case Some(file) => if file in existing then Some(file) else None
    case None => None
  }

  /** The `strncmp` test is exactly "starts with the namespace prefix". */
  lemma PrefixTest(className: string)
    ensures StrncmpEqual(PREFIX, className, |PREFIX|) <==> StartsWith(className, PREFIX)
  {
  }

  /** A class outside the namespace maps to no file. */
  lemma ForeignClassLoadsNothing(className: string, pluginDir: string)
    requires !StartsWith(className, PREFIX)
    ensures ClassFile(className, pluginDir) == None
  {
  }

  /** A class inside the namespace maps to includes/class-<stem>.php of the name after the prefix. */
  lemma NamespacedClassFile(relative: string, pluginDir: string)
    ensures ClassFile(PREFIX + relative, pluginDir) == Some(pluginDir + "includes/" + "class-" + Stem(relative) + ".php")
  {
    assert (PREFIX + relative)[..|PREFIX|] == PREFIX;
    assert (PREFIX + relative)[|PREFIX|..] == relative;
  }

  /** Backslashes of a nested namespace are kept, not turned into directory separators. */
  lemma BackslashesKept(relative: string, k: nat)
    requires k < |relative| && relative[k] == '\\'
    ensures |Stem(relative)| == |relative| && Stem(relative)[k] == '\\'
  {
  }

  lemma {:induction false} AppendCancel(a: string, x: string, y: string, b: string)
    requires a + x + b == a + y + b
    ensures x == y
  {
    assert |x| == |y|;
    forall k | 0 <= k < |x| ensures x[k] == y[k] {
      assert x[k] == (a + x + b)[|a| + k];
      assert y[k] == (a + y + b)[|a| + k];
    }
  }

  /**
   * Two classes of the namespace share a file exactly when their names agree after lower-casing
   * and turning underscores into dashes; in particular names that differ only in letter case do.
   */
  lemma SameFileIffSameStem(r1: string, r2: string, pluginDir: string)
    ensures ClassFile(PREFIX + r1, pluginDir) == ClassFile(PREFIX + r2, pluginDir) <==> Stem(r1) == Stem(r2)
  {
    NamespacedClassFile(r1, pluginDir);
    NamespacedClassFile(r2, pluginDir);
    if ClassFile(PREFIX + r1, pluginDir) == ClassFile(PREFIX + r2, pluginDir) {
      var a := pluginDir + "includes/" + "class-";
      assert a + Stem(r1) + ".php" == a + Stem(r2) + ".php";
      AppendCancel(a, Stem(r1), Stem(r2), ".php");
    }
  }

  lemma CaseInsensitive(r1: string, r2: string, pluginDir: string)
    requires Lower(r1) == Lower(r2)
    ensures ClassFile(PREFIX + r1, pluginDir) == ClassFile(PREFIX + r2, pluginDir)
  {
    SameFileIffSameStem(r1, r2, pluginDir);
    assert |r1| == |r2|;
    forall k | 0 <= k < |r1| ensures Stem(r1)[k] == Stem(r2)[k] {
      assert LowerChar(r1[k]) == Lower(r1)[k] == Lower(r2)[k] == LowerChar(r2[k]);
    }
  }

  lemma StemOfBatchProcessor()
    ensures Stem("Batch_Processor") == "batch-processor"
  {
    var d := DashesForUnderscores("Batch_Processor");
    assert d == "Batch-Processor";
    assert LowerChar('B') == 'b' && LowerChar('P') == 'p';
    var stem := Lower(d);
    forall k | 0 <= k < |stem| ensures stem[k] == "batch-processor"[k] {
      assert stem[k] == LowerChar(d[k]);
    }
  }

  lemma ClassFileOfStem(relative: string, stem: string, pluginDir: string)
    requires Stem(relative) == stem
    ensures ClassFile(PREFIX + relative, pluginDir) == Some(pluginDir + "includes/" + ("class-" + stem + ".php"))
  {
    NamespacedClassFile(relative, pluginDir);
    var dir := pluginDir + "includes/";
    assert dir + "class-" + stem + ".php" == dir + ("class-" + stem + ".php");
  }

  /** The plugin's own Batch_Processor class is loaded from includes/class-batch-processor.php. */
  lemma BatchProcessorFile(pluginDir: string)
    ensures ClassFile("ZhSh\\Litres\\Batch_Processor", pluginDir) == Some(pluginDir + "includes/" + "class-batch-processor.php")
  {
    BatchProcessorName();
    StemOfBatchProcessor();
    ClassFileOfStem("Batch_Processor", "batch-processor", pluginDir);
    BatchProcessorFileName();
  }

  lemma BatchProcessorName()
    ensures "ZhSh\\Litres\\Batch_Processor" == PREFIX + "Batch_Processor"
  {
  }

  lemma BatchProcessorFileName()
    ensures "class-" + "batch-processor" + ".php" == "class-batch-processor.php"
  {
  }
}
