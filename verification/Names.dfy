/** How the file handlers read a request's name and language. */
module Names {
  /** White space as Go's unicode package defines it. */
  predicate IsSpace(c: char) {
    c in "\t\n\U{b}\U{c}\r \U{85}\U{a0}\U{1680}\U{2028}\U{2029}\U{202f}\U{205f}\U{3000}" || '\U{2000}' <= c <= '\U{200a}'
  }

  /** The white space characters by code point. */
  lemma SpaceCodes(c: char)
    ensures var u := c as int;
      IsSpace(c) <==> 9 <= u <= 13 || u == 32 || u == 133 || u == 160 || u == 5760 || 8192 <= u <= 8202
                      || u == 8232 || u == 8233 || u == 8239 || u == 8287 || u == 12288
  {
  }

  function TrimLeft(s: string): string {
    if s != "" && IsSpace(s[0]) then TrimLeft(s[1..]) else s
  }

  function TrimRight(s: string): string {
    if s != "" && IsSpace(s[|s| - 1]) then TrimRight(s[..|s| - 1]) else s
  }

  /** strings.TrimSpace */
  function TrimSpace(s: string): string {
    TrimRight(TrimLeft(s))
  }

  lemma {:induction false} TrimLeftCuts(s: string) returns (i: nat)
    ensures i <= |s| && TrimLeft(s) == s[i..]
    ensures forall j :: 0 <= j < i ==> IsSpace(s[j])
    ensures TrimLeft(s) != "" ==> !IsSpace(TrimLeft(s)[0])
    decreases |s|
  {
    i := 0;
    if s != "" && IsSpace(s[0]) {
      i := TrimLeftCuts(s[1..]);
      i := i + 1;
    }
  }

  lemma {:induction false} TrimRightCuts(s: string) returns (i: nat)
    ensures i <= |s| && TrimRight(s) == s[..i]
    ensures forall j :: i <= j < |s| ==> IsSpace(s[j])
    ensures i > 0 ==> !IsSpace(s[i - 1])
    decreases |s|
  {
    i := |s|;
    if s != "" && IsSpace(s[|s| - 1]) {
      i := TrimRightCuts(s[..|s| - 1]);
    }
  }

  /** A trimmed name is a part of the name, and what is cut off on either side is white space. It is empty
      iff the name was all white space; otherwise it begins and ends without. */
  lemma TrimSpaceTrims(s: string) returns (from: nat, to: nat)
    ensures from <= to <= |s| && TrimSpace(s) == s[from..to]
    ensures forall j :: 0 <= j < from || to <= j < |s| ==> IsSpace(s[j])
    ensures var t := TrimSpace(s);
            && (t == "" <==> forall j :: 0 <= j < |s| ==> IsSpace(s[j]))
            && (t != "" ==> !IsSpace(t[0]) && !IsSpace(t[|t| - 1]))
  {
    var i := TrimLeftCuts(s);
    var left := TrimLeft(s);
    var k := TrimRightCuts(left);
    hide IsSpace, TrimLeft, TrimRight;
    from, to := i, i + k;
    assert left[..k] == s[i..i + k];
    forall j | to <= j < |s| ensures IsSpace(s[j]) { assert s[j] == left[j - i]; }
    if left != "" {
      assert left[0] == s[i];
      assert k > 0;
    }
  }

  /** filepath.Ext: from the last dot of the last path element. */
  function Ext(name: string): string {
    if name == "" || name[|name| - 1] == '/' then ""
    else if name[|name| - 1] == '.' then "."
    else
      var e := Ext(name[..|name| - 1]);
      if e == "" then "" else e + [name[|name| - 1]]
  }

  /** A plain suffix, with neither a dot nor a slash in it, is the extension after a dot. */
  lemma {:induction false} ExtOfSuffix(stem: string, suffix: string)
    requires '.' !in suffix && '/' !in suffix
    ensures Ext(stem + "." + suffix) == "." + suffix
    decreases |suffix|
  {
    var name := stem + "." + suffix;
    if suffix == "" {
      assert name == stem + ".";
    } else {
      assert name[..|name| - 1] == stem + "." + suffix[..|suffix| - 1];
      ExtOfSuffix(stem, suffix[..|suffix| - 1]);
    }
  }

  /** A last path element without a dot has no extension. */
  lemma {:induction false} NoExt(name: string)
    requires '.' !in name && '/' !in name
    ensures forall stem :: Ext(stem + "/" + name) == ""
    ensures Ext(name) == ""
    decreases |name|
  {
    if name == "" {
      forall stem ensures Ext(stem + "/" + name) == "" { assert stem + "/" + name == stem + "/"; }
    } else {
      NoExt(name[..|name| - 1]);
      forall stem ensures Ext(stem + "/" + name) == "" {
        var whole := stem + "/" + name;
        assert whole[..|whole| - 1] == stem + "/" + name[..|name| - 1];
      }
    }
  }

  /** The languages of the file extensions. */
  lemma KnownLanguages(name: string)
    ensures Ext(name) == ".py" ==> LangFromExtension(name) == "python"
    ensures Ext(name) == ".js" ==> LangFromExtension(name) == "javascript"
    ensures Ext(name) == ".ts" ==> LangFromExtension(name) == "typescript"
    ensures Ext(name) == ".go" ==> LangFromExtension(name) == "go"
    ensures Ext(name) == ".java" ==> LangFromExtension(name) == "java"
    ensures Ext(name) == ".c" ==> LangFromExtension(name) == "c"
    ensures Ext(name) == ".cpp" || Ext(name) == ".cc" ==> LangFromExtension(name) == "cpp"
    ensures Ext(name) == ".rs" ==> LangFromExtension(name) == "rust"
    ensures Ext(name) == ".rb" ==> LangFromExtension(name) == "ruby"
    ensures Ext(name) == ".php" ==> LangFromExtension(name) == "php"
    ensures Ext(name) == ".html" ==> LangFromExtension(name) == "html"
    ensures Ext(name) == ".css" ==> LangFromExtension(name) == "css"
    ensures Ext(name) == ".json" ==> LangFromExtension(name) == "json"
    ensures Ext(name) == ".md" ==> LangFromExtension(name) == "markdown"
    ensures Ext(name) == ".yaml" || Ext(name) == ".yml" ==> LangFromExtension(name) == "yaml"
    ensures Ext(name) == ".sh" ==> LangFromExtension(name) == "shell"
    ensures Ext(name) == "" ==> LangFromExtension(name) == "plaintext"
  {
    hide Ext;
  }

  function LangFromExtension(name: string): string {
    var languages := map[
      ".py" := "python", ".js" := "javascript", ".ts" := "typescript", ".go" := "go", ".java" := "java", ".c" := "c",
      ".cpp" := "cpp", ".cc" := "cpp", ".rs" := "rust", ".rb" := "ruby", ".php" := "php", ".html" := "html",
      ".css" := "css", ".json" := "json", ".md" := "markdown", ".yaml" := "yaml", ".yml" := "yaml", ".sh" := "shell"];
    if Ext(name) in languages then languages[Ext(name)] else "plaintext"
  }
}
