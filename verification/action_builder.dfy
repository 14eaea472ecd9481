/** The ordered list of steps the import page runs for a demo
    (ImportContentActionBuilder), and the data handed to the page with it. */
module ActionBuilder {
  import opened Wrappers
  import opened Php
  import opened Text
  import OrderedMap

  /** The steps of an import. */
  datatype Action =
    | InstallTheme | DownloadPackage | SetupRewriteRules | TurnOnDesignSystem | ClearImporterSession
    | ImportPostTypes | ImportAttachments | ProcessBlockThemeData | DownloadFseFonts | ImportSiteLogo | Cleanup

  /** The name the page and the server know a step by. */
  function Name(a: Action): string {
    match a
    case InstallTheme => "install_bb_theme"
    case DownloadPackage => "download_package"
    case SetupRewriteRules => "setup_rewrite_rules"
    case TurnOnDesignSystem => "turn_on_design_system"
    case ClearImporterSession => "clear_importer_session"
    case ImportPostTypes => "import_post_types"
    case ImportAttachments => "import_attachments"
    case ProcessBlockThemeData => "process_block_theme_data"
    case DownloadFseFonts => "download_fse_fonts"
    case ImportSiteLogo => "import_site_logo"
    case Cleanup => "cleanup"
  }

  /** The block theme the import expects to be active. */
  const THEME := "better-block-theme"

  /** The steps every import ends with, in order. */
  const TAIL: seq<Action> := [TurnOnDesignSystem, ClearImporterSession, ImportPostTypes, ImportAttachments,
                              ProcessBlockThemeData, DownloadFseFonts, ImportSiteLogo, Cleanup]

  /** What `setup_data` hands to the page. */
  datatype ImportData = ImportData(actions: seq<Action>, users: seq<Value>, demoId: Value)

  /** The position of a step in the full list. */
  function Rank(a: Action): nat {
    match a
    case InstallTheme => 0
    case DownloadPackage => 1
    case SetupRewriteRules => 2
    case TurnOnDesignSystem => 3
    case ClearImporterSession => 4
    case ImportPostTypes => 5
    case ImportAttachments => 6
    case ProcessBlockThemeData => 7
    case DownloadFseFonts => 8
    case ImportSiteLogo => 9
    case Cleanup => 10
  }

  /** Each step comes strictly after the one before it. */
  predicate Ordered(s: seq<Action>) {
    forall i :: 0 <= i < |s| - 1 ==> Rank(s[i]) < Rank(s[i + 1])
  }

  /** Two lists in step order, the second starting after the first ends,
      make one list in step order. */
  lemma OrderedAppend(a: seq<Action>, b: seq<Action>)
    requires Ordered(a) && Ordered(b)
    requires a != [] && b != [] ==> Rank(a[|a| - 1]) < Rank(b[0])
    ensures Ordered(a + b)
  {
    forall i | 0 <= i < |a + b| - 1 ensures Rank((a + b)[i]) < Rank((a + b)[i + 1]) {
      if i + 1 < |a| {
        assert (a + b)[i] == a[i] && (a + b)[i + 1] == a[i + 1];
      } else if i >= |a| {
        assert (a + b)[i] == b[i - |a|] && (a + b)[i + 1] == b[i - |a| + 1];
      }
    }
  }

  /** A list in step order names no step twice. */
  lemma {:induction false} OrderedDistinct(s: seq<Action>)
    requires Ordered(s)
    ensures OrderedMap.Distinct(s)
    ensures s != [] ==> forall j :: 0 < j < |s| ==> Rank(s[0]) < Rank(s[j])
  {
    if s != [] {
      assert Ordered(s[1..]) by {
        forall i | 0 <= i < |s[1..]| - 1 ensures Rank(s[1..][i]) < Rank(s[1..][i + 1]) {
          assert s[1..][i] == s[i + 1] && s[1..][i + 1] == s[i + 2];
        }
      }
      OrderedDistinct(s[1..]);
      forall j | 0 < j < |s| ensures Rank(s[0]) < Rank(s[j]) {
        if j > 1 {
          assert s[j] == s[1..][j - 1];
        }
      }
      forall i, j | 0 <= i < j < |s| ensures s[i] != s[j] {
        if i > 0 {
          assert s[i] == s[1..][i - 1] && s[j] == s[1..][j - 1];
        }
      }
    }
  }

  /** `setup_data`, given the active template, the `permalink_structure`
      option, the external user (null when none was supplied) and the
      demo's id: the theme is installed first when another template is
      active, the package is always downloaded, rewrite rules are set up
      right after it when permalinks are plain, then the fixed tail. */
  function SetupData(template: string, permalinks: Value, user: Value, demoId: Value): (r: ImportData)
    ensures 9 <= |r.actions| <= 11 && Ordered(r.actions) && OrderedMap.Distinct(r.actions)
    ensures r.actions[0] == InstallTheme <==> template != THEME
    ensures InstallTheme in r.actions <==> template != THEME
    ensures r.actions[|r.actions| - |TAIL|..] == TAIL
    ensures var i := if template != THEME then 1 else 0;
            && r.actions[i] == DownloadPackage
            && (r.actions[i + 1] == SetupRewriteRules <==> !Truthy(permalinks))
            && (SetupRewriteRules in r.actions <==> !Truthy(permalinks))
    ensures r.users == (if user != VNull then [user] else [])
    ensures r.demoId == demoId
  {
    StepsHead(template, permalinks);
    ImportData(Steps(template, permalinks), if user != VNull then [user] else [], demoId)
  }

  /** The step list of `setup_data`: the optional theme step, the
      download, the optional rewrite step, then the tail. */
  function Steps(template: string, permalinks: Value): (a: seq<Action>)
    ensures 9 <= |a| <= 11 && Ordered(a) && OrderedMap.Distinct(a)
    ensures a[|a| - |TAIL|..] == TAIL
  {
    var head := Head(template, permalinks);
    ConcatParts(head, TAIL);
    TailRanks();
    assert Ordered(head);
    OrderedAppend(head, TAIL);
    OrderedDistinct(head + TAIL);
    head + TAIL
  }

  function Head(template: string, permalinks: Value): seq<Action> {
    (if template != THEME then [InstallTheme] else []) + [DownloadPackage]
      + (if !Truthy(permalinks) then [SetupRewriteRules] else [])
  }

  /** Where the optional steps go. */
  lemma StepsHead(template: string, permalinks: Value)
    ensures var a := Steps(template, permalinks);
            && (a[0] == InstallTheme <==> template != THEME)
            && (InstallTheme in a <==> template != THEME)
            && var i := if template != THEME then 1 else 0;
               && a[i] == DownloadPackage
               && (a[i + 1] == SetupRewriteRules <==> !Truthy(permalinks))
               && (SetupRewriteRules in a <==> !Truthy(permalinks))
  {
    var head := Head(template, permalinks);
    var a := Steps(template, permalinks);
    TailRanks();
    ConcatParts(head, TAIL);
    assert !Truthy(permalinks) ==> SetupRewriteRules in head;
  }

  /** The tail holds the steps of rank 3 to 10, in order. */
  lemma TailRanks()
    ensures |TAIL| == 8 && forall i :: 0 <= i < |TAIL| ==> Rank(TAIL[i]) == i + 3
    ensures Ordered(TAIL) && InstallTheme !in TAIL && SetupRewriteRules !in TAIL
  {
    var t := TAIL;
    assert Rank(t[0]) == 3 && Rank(t[1]) == 4 && Rank(t[2]) == 5 && Rank(t[3]) == 6;
    assert Rank(t[4]) == 7 && Rank(t[5]) == 8 && Rank(t[6]) == 9 && Rank(t[7]) == 10;
  }

  /** `init`: the starting text names the demo's title; there is none
      without a demo. */
  function StartingText(title: Option<Value>): (r: Option<string>)
    ensures r.None? <==> title.None?
    ensures title.Some? ==> StartsWith(r.value, "Importing ") && EndsWith(r.value, " template...")
  {
    match title
    case None => None
    case Some(t) => Some("Importing " + ToStr(t) + " template...")
  }

  /** Steps are told apart by their names. */
  lemma NameInjective(a: Action, b: Action)
    requires Name(a) == Name(b)
    ensures a == b
  {
  }
}
