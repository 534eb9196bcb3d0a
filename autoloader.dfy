/**
 * The class autoloader: a fully qualified class name in the plugin's `WCFD\`
 * namespace is turned into `includes/<directory>/class-<name>.php` below the
 * plugin directory, and the file is required when it exists.
 *
 * `DIRECTORY_SEPARATOR` is '/'; `file_exists` is a parameter.
 */
module Autoloader {
  import opened Php

  const Prefix := "WCFD\\"
  const Separator := '/'

  /** The namespace segments with a directory of their own. */
  const NamespaceMap: map<string, string> := map[
    "Core" := "core",
    "Admin" := "admin",
    "Frontend" := "frontend",
    "Database" := "database",
    "Utils" := "utils"
  ]

  datatype Outcome =
    | Ignored               // not a class of this plugin
    | Missing(path: string) // the computed file does not exist
    | Required(path: string)

  /** Index of the last `c` in `s`, or -1. */
  function LastIndex(c: char, s: string): (k: int)
    ensures -1 <= k < |s|
    ensures k >= 0 ==> s[k] == c
    ensures forall j | k < j < |s| :: s[j] != c
  {
    if s == [] then -1
    else if s[|s| - 1] == c then |s| - 1
    else LastIndex(c, s[..|s| - 1])
  }

  /** `basename`: what follows the last separator. */
  function Basename(path: string): (r: string)
    ensures Separator !in r
    ensures EndsWith(path, r)
  {
    path[LastIndex(Separator, path) + 1..]
  }

  /** `dirname`: what precedes the last separator; "." without one, "/" when it is the first character. */
  function Dirname(path: string): (r: string)
    ensures Separator !in path ==> r == "."
  {
    var k := LastIndex(Separator, path);
    if k < 0 then "." else if k == 0 then "/" else path[..k]
  }

  /** A path with a separator past its first character is its dirname and basename joined. */
  lemma SplitJoin(path: string)
    requires LastIndex(Separator, path) > 0
    ensures Dirname(path) + [Separator] + Basename(path) == path
  {
    var k := LastIndex(Separator, path);
    assert path == path[..k] + [path[k]] + path[k + 1..];
  }

  /** The class name relative to the plugin namespace, with '/' between segments. */
  function RelativePath(cls: string): (r: string)
    ensures '\\' !in r
  {
    ReplaceChar('\\', Separator, StrReplace(Prefix, "", cls))
  }

  /** "class-" + the basename, lower-cased, with '_' turned into '-', + ".php". */
  function FileName(rel: string): (r: string)
    ensures StartsWith(r, "class-") && EndsWith(r, ".php")
    ensures |r| == |Basename(rel)| + 10
    ensures forall i | 6 <= i < |r| - 4 :: r[i] != '_' && !IsUpper(r[i])
  {
    var stem := ToLower(ReplaceChar('_', '-', Basename(rel)));
    Wrapped("class-", stem, ".php");
    "class-" + stem + ".php"
  }

  /** Where the parts of `a + m + b` sit. */
  lemma Wrapped(a: string, m: string, b: string)
    ensures StartsWith(a + m + b, a) && EndsWith(a + m + b, b)
    ensures forall i | |a| <= i < |a| + |m| :: (a + m + b)[i] == m[i - |a|]
  {
    var r := a + m + b;
    assert r[..|a|] == a;
    assert r[|r| - |b|..] == b;
  }

  /** The directory: the dirname mapped through the namespace table, then lower-cased. */
  function Directory(rel: string): (r: string)
    ensures forall i | 0 <= i < |r| :: !IsUpper(r[i])
    ensures Dirname(rel) in NamespaceMap ==> r == NamespaceMap[Dirname(rel)]
    ensures Dirname(rel) !in NamespaceMap ==> |r| == |Dirname(rel)|
  {
    var d := Dirname(rel);
    if d in NamespaceMap then
      MappedLower(d);
      ToLower(NamespaceMap[d])
    else ToLower(d)
  }

  /** The mapped directory names are already lower case. */
  lemma MappedLower(d: string)
    requires d in NamespaceMap
    ensures ToLower(NamespaceMap[d]) == NamespaceMap[d]
  {
    var v := NamespaceMap[d];
    assert forall i | 0 <= i < |v| :: !IsUpper(v[i]);
  }

  /** The file below the plugin directory: `includes/<directory>/<file>`. */
  function IncludePath(cls: string): (r: string)
    ensures StartsWith(r, "includes/")
    ensures EndsWith(r, ".php")
  {
    var rel := RelativePath(cls);
    var file := FileName(rel);
    var r := "includes/" + Directory(rel) + "/" + file;
    assert r[..9] == "includes/";
    assert r[|r| - |file|..] == file;
    assert r[|r| - 4..] == file[|file| - 4..];
    r
  }

  /**
   * The registered autoload callback: a class outside the plugin namespace
   * is ignored, and the computed file is required when it exists.
   */
  function Autoload(cls: string, pluginDir: string, fileExists: string -> bool): (r: Outcome)
    ensures r.Ignored? <==> !StartsWith(cls, Prefix)
    ensures !r.Ignored? ==> r.path == pluginDir + IncludePath(cls)
    ensures r.Required? <==> StartsWith(cls, Prefix) && fileExists(pluginDir + IncludePath(cls))
  {
    if !StartsWith(cls, Prefix) then Ignored
    else
      var file := pluginDir + IncludePath(cls);
      if fileExists(file) then Required(file) else Missing(file)
  }

  /** After a one-segment namespace without a backslash and not ending in "WCFD", "WCFD\" cannot occur. */
  lemma NoInnerPrefix(ns: string, base: string)
    requires '\\' !in ns && '\\' !in base
    requires !EndsWith(ns, "WCFD")
    ensures !Contains(ns + "\\" + base, Prefix)
  {
    var t := ns + "\\" + base;
    forall i | 0 <= i <= |t| - |Prefix|
      ensures !OccursAt(t, Prefix, i)
    {
      if i + 4 < |ns| {
        assert t[i + 4] == ns[i + 4];
        assert t[i..i + 5][4] != Prefix[4];
      } else if i + 4 > |ns| {
        assert t[i + 4] == base[i + 4 - |ns| - 1];
        assert t[i..i + 5][4] != Prefix[4];
      } else {
        assert ns[|ns| - 4..] == t[i..i + 4] == t[i..i + 5][..4];
        assert Prefix[..4] == "WCFD";
      }
    }
  }

  /** The segments with a directory of their own satisfy `NoInnerPrefix`. */
  lemma MappedSegment(ns: string)
    requires ns in NamespaceMap
    ensures '\\' !in ns && Separator !in ns && |ns| > 0
    ensures !EndsWith(ns, "WCFD")
  {
  }

  /** `str_replace` removes the leading prefix and nothing else from a two-segment name. */
  lemma StripPrefix(ns: string, base: string)
    requires '\\' !in ns && '\\' !in base
    requires !EndsWith(ns, "WCFD")
    ensures StrReplace(Prefix, "", Prefix + ns + "\\" + base) == ns + "\\" + base
  {
    var tail := ns + "\\" + base;
    assert Prefix + ns + "\\" + base == Prefix + tail;
    StrReplaceLeading(Prefix, "", tail);
    NoInnerPrefix(ns, base);
    StrReplaceAbsent(Prefix, "", tail);
  }

  /** The one backslash between two segments becomes the separator. */
  lemma SeparateSegments(ns: string, base: string)
    requires '\\' !in ns && '\\' !in base
    ensures ReplaceChar('\\', Separator, ns + "\\" + base) == ns + [Separator] + base
  {
    var tail := ns + "\\" + base;
    var rel := ReplaceChar('\\', Separator, tail);
    forall k | 0 <= k < |rel|
      ensures rel[k] == (ns + [Separator] + base)[k]
    {
      if k < |ns| {
        assert tail[k] == ns[k];
      } else if k > |ns| {
        assert tail[k] == base[k - |ns| - 1];
      }
    }
  }

  /** Removing the prefix and turning backslashes into separators, for a two-segment name. */
  lemma RelativeOfSegments(ns: string, base: string)
    requires '\\' !in ns && '\\' !in base
    requires !EndsWith(ns, "WCFD")
    ensures RelativePath(Prefix + ns + "\\" + base) == ns + [Separator] + base
  {
    StripPrefix(ns, base);
    SeparateSegments(ns, base);
  }

  /** A non-empty directory joined to a separator-free name splits back into the two. */
  lemma SplitOfJoin(dir: string, base: string)
    requires |dir| > 0 && Separator !in base
    ensures Basename(dir + [Separator] + base) == base
    ensures Dirname(dir + [Separator] + base) == dir
  {
    var p := dir + [Separator] + base;
    assert p[|dir|] == Separator;
    forall j | |dir| < j < |p|
      ensures p[j] != Separator
    {
      assert p[j] == base[j - |dir| - 1];
    }
    assert LastIndex(Separator, p) == |dir|;
    assert p[|dir| + 1..] == base;
    assert p[..|dir|] == dir;
  }

  /** `WCFD\<Segment>\<Name>` for a mapped segment lands in that segment's directory. */
  lemma NamespacedClassPath(ns: string, base: string)
    requires ns in NamespaceMap
    requires '\\' !in base && Separator !in base
    ensures IncludePath(Prefix + ns + "\\" + base)
      == "includes/" + NamespaceMap[ns] + "/" + ("class-" + ToLower(ReplaceChar('_', '-', base)) + ".php")
  {
    MappedSegment(ns);
    RelativeOfSegments(ns, base);
    SplitOfJoin(ns, base);
  }

  /** A class in a mapped segment whose file stem is `stem`. */
  lemma ClassFile(ns: string, base: string, stem: string)
    requires ns in NamespaceMap
    requires '\\' !in base && Separator !in base
    requires |base| == |stem|
    requires forall i | 0 <= i < |base| :: LowerChar(if base[i] == '_' then '-' else base[i]) == stem[i]
    ensures IncludePath(Prefix + ns + "\\" + base) == "includes/" + NamespaceMap[ns] + "/" + ("class-" + stem + ".php")
  {
    NamespacedClassPath(ns, base);
    Stem(base, stem);
  }

  /** Worked instance of `NamespacedClassPath`: `WCFD\Core\Campaign_Manager` resolves to the file the bootstrap requires by hand. */
  lemma CampaignManagerFile()
    ensures IncludePath("WCFD\\Core\\Campaign_Manager") == "includes/core/class-campaign-manager.php"
  {
    CampaignManagerClassName();
    CoreDirectory();
    CampaignManagerPath();
    ClassFile("Core", "Campaign_Manager", "campaign-manager");
  }

  /** Worked instance of `NamespacedClassPath`: `WCFD\Core\Logger` resolves to the file the bootstrap requires by hand. */
  lemma LoggerFile()
    ensures IncludePath("WCFD\\Core\\Logger") == "includes/core/class-logger.php"
  {
    LoggerClassName();
    CoreDirectory();
    LoggerPath();
    ClassFile("Core", "Logger", "logger");
  }

  /** Worked instance of `NamespacedClassPath`: `WCFD\Core\Validator` resolves to the file the bootstrap requires by hand. */
  lemma ValidatorFile()
    ensures IncludePath("WCFD\\Core\\Validator") == "includes/core/class-validator.php"
  {
    ValidatorClassName();
    CoreDirectory();
    ValidatorPath();
    ClassFile("Core", "Validator", "validator");
  }

  /** Worked instance of `NamespacedClassPath`: `WCFD\Database\Database_Manager` resolves to the file the bootstrap requires by hand. */
  lemma DatabaseManagerFile()
    ensures IncludePath("WCFD\\Database\\Database_Manager") == "includes/database/class-database-manager.php"
  {
    DatabaseManagerClassName();
    DatabaseDirectory();
    DatabaseManagerPath();
    ClassFile("Database", "Database_Manager", "database-manager");
  }

  // The string facts the four worked instances above are built from, one per
  // lemma to keep each instance's proof small.

  lemma CampaignManagerClassName()
    ensures Prefix + "Core" + "\\" + "Campaign_Manager" == "WCFD\\Core\\Campaign_Manager"
  {
  }

  lemma CampaignManagerPath()
    ensures "includes/" + "core" + "/" + ("class-" + "campaign-manager" + ".php") == "includes/core/class-campaign-manager.php"
  {
  }

  lemma LoggerClassName()
    ensures Prefix + "Core" + "\\" + "Logger" == "WCFD\\Core\\Logger"
  {
  }

  lemma LoggerPath()
    ensures "includes/" + "core" + "/" + ("class-" + "logger" + ".php") == "includes/core/class-logger.php"
  {
  }

  lemma ValidatorClassName()
    ensures Prefix + "Core" + "\\" + "Validator" == "WCFD\\Core\\Validator"
  {
  }

  lemma ValidatorPath()
    ensures "includes/" + "core" + "/" + ("class-" + "validator" + ".php") == "includes/core/class-validator.php"
  {
  }

  lemma DatabaseManagerClassName()
    ensures Prefix + "Database" + "\\" + "Database_Manager" == "WCFD\\Database\\Database_Manager"
  {
  }

  lemma DatabaseManagerPath()
    ensures "includes/" + "database" + "/" + ("class-" + "database-manager" + ".php") == "includes/database/class-database-manager.php"
  {
  }

  lemma CoreDirectory()
    ensures NamespaceMap["Core"] == "core"
  {
  }

  lemma DatabaseDirectory()
    ensures NamespaceMap["Database"] == "database"
  {
  }

  /** The file stem of a class basename, checked character by character. */
  lemma Stem(base: string, stem: string)
    requires |base| == |stem|
    requires forall i | 0 <= i < |base| :: LowerChar(if base[i] == '_' then '-' else base[i]) == stem[i]
    ensures ToLower(ReplaceChar('_', '-', base)) == stem
  {
  }
}
