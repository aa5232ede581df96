/** The IDE editor's file tabs (ts/application/tside/win32/source/editor.c):
    the tab list, newest first, the current tab, tab naming, and the
    choices made when files are opened and closed. Windows, Scintilla and
    dialogs are left to inputs: whether a tab's text is modified, what the
    user picks in a dialog, whether a file can be read, whether a tab can
    be created. */
module Editor {
  import opened Wrappers
  import opened Seqs

  /** struct file_tab_data: the file name; empty for a new, unnamed file. */
  datatype Tab = Tab(fileName: seq<char>)

  /** struct editor_data: the tab list from the head, and the current tab
      as current_tab_index, None where current_tab is NULL and the index
      -1. total_tabs is the list's length. */
  datatype Editor = Editor(tabs: seq<Tab>, current: Option<nat>)

  /** The current tab, when there is one, is in the list. */
  predicate Valid(e: Editor)
  {
    e.current.Some? ==> e.current.value < |e.tabs|
  }

  /** The editor as created (editor.c:132-135). */
  function Empty(): (e: Editor)
    ensures Valid(e) && e.tabs == [] && e.current.None?
  {
    Editor([], None)
  }

  /** current_tab_index as the C stores it. */
  function CurrentIndex(e: Editor): (i: int)
    ensures i == -1 <==> e.current.None?
    ensures i >= -1
  {
    if e.current.Some? then e.current.value else -1
  }

  // ---------------------------------------------------------------------
  // Tab names (MakeTabName, editor.c:300-320)

  /** The position of the last `x` in `s`, as wcsrchr finds it. */
  function LastIndexOf(s: seq<char>, x: char): (r: Option<nat>)
    ensures r.None? <==> x !in s
    ensures r.Some? ==> r.value < |s| && s[r.value] == x && x !in s[r.value + 1..]
  {
    if |s| == 0 then None
    else if s[|s| - 1] == x then Some(|s| - 1)
    else
      var r := LastIndexOf(s[..|s| - 1], x);
      assert r.Some? ==> s[r.value + 1..] == s[..|s| - 1][r.value + 1..] + [s[|s| - 1]];
      r
  }

  /** The last `x` found where it is. */
  lemma {:induction false} LastIndexOfAt(s: seq<char>, x: char, k: nat)
    requires k < |s| && s[k] == x && x !in s[k + 1..]
    ensures LastIndexOf(s, x) == Some(k)
  {
    if k < |s| - 1 {
      assert s[|s| - 1] in s[k + 1..];
      assert s[..|s| - 1][k + 1..] == s[k + 1..|s| - 1];
      LastIndexOfAt(s[..|s| - 1], x, k);
    }
  }

  /** MakeTabName: the text after the last '\\', cut at the last '.' when
      that lies after it. A name without '\\' is kept whole. */
  function MakeTabName(fileName: seq<char>): (r: seq<char>)
    ensures '\\' !in fileName ==> r == fileName
    ensures '\\' in fileName ==> '\\' !in r
    ensures '\\' in fileName ==>
              var tail := fileName[LastIndexOf(fileName, '\\').value + 1..];
              r <= tail && (|r| < |tail| ==> tail[|r|] == '.' && '.' !in tail[|r| + 1..])
  {
    match LastIndexOf(fileName, '\\')
    case None => fileName
    case Some(s) =>
      var tail := fileName[s + 1..];
      match LastIndexOf(fileName, '.')
      case Some(d) => if d > s then fileName[s + 1..d] else tail
      case None => tail
  }

  /** A full path's tab name is its base name: the directory and the last
      extension are dropped. */
  lemma TabNameIsBase(dir: seq<char>, base: seq<char>, ext: seq<char>)
    requires '\\' !in base && '\\' !in ext && '.' !in ext
    ensures MakeTabName(dir + "\\" + base + "." + ext) == base
  {
    var f := dir + "\\" + base + "." + ext;
    var s := |dir|;
    var d := |dir| + 1 + |base|;
    assert f[s + 1..] == base + "." + ext;
    assert f[d + 1..] == ext;
    LastIndexOfAt(f, '\\', s);
    LastIndexOfAt(f, '.', d);
    assert f[s + 1..d] == base;
  }

  /** A tab name without an extension is the text after the last '\\'. */
  lemma TabNameWithoutExtension(dir: seq<char>, base: seq<char>)
    requires '\\' !in base && '.' !in base
    ensures MakeTabName(dir + "\\" + base) == base
  {
    var f := dir + "\\" + base;
    assert f[|dir| + 1..] == base;
    LastIndexOfAt(f, '\\', |dir|);
  }

  /** Kept as written: a name with no '\\' keeps its extension. */
  lemma BareNameKeepsExtension()
    ensures MakeTabName("unit.ts") == "unit.ts"
  {
    var f := "unit.ts";
    assert forall i :: 0 <= i < |f| ==> f[i] != '\\';
  }

  // ---------------------------------------------------------------------
  // The tab list (AddFileTab, RemoveFileTab, FindFileTab, SwitchFileTab)

  /** AddFileTab (editor.c:322-401): the new tab goes to the head, so the
      current tab's index moves up by one. None is TSIDE_ERROR_MEMORY, the
      editor unchanged. */
  function AddFileTab(e: Editor, fileName: Option<seq<char>>, createOk: bool): (r: Option<Editor>)
    ensures r.None? <==> !createOk
    ensures r.Some? ==> r.value.tabs == [Tab(if fileName.Some? then fileName.value else "")] + e.tabs
    ensures r.Some? && e.current.Some? ==> r.value.current == Some(e.current.value + 1)
    ensures r.Some? && e.current.None? ==> r.value.current.None?
    ensures r.Some? && Valid(e) ==> Valid(r.value)
    ensures r.Some? && e.current.Some? && Valid(e) ==>
              r.value.tabs[r.value.current.value] == e.tabs[e.current.value]
  {
    if !createOk then None
    else
      var tab := Tab(if fileName.Some? then fileName.value else "");
      var current := if e.current.Some? then Some(e.current.value + 1) else None;
      Some(Editor([tab] + e.tabs, current))
  }

  /** The list without its entry at `i`. */
  function Without<T>(s: seq<T>, i: nat): (r: seq<T>)
    requires i < |s|
    ensures |r| + 1 == |s|
    ensures forall j :: 0 <= j < i ==> r[j] == s[j]
    ensures forall j :: i <= j < |r| ==> r[j] == s[j + 1]
  {
    s[..i] + s[i + 1..]
  }

  /** RemoveFileTab (editor.c:403-447): an index outside the list, negative
      ones included, changes nothing. Removing the current tab leaves no
      current tab; removing one before it moves its index down. */
  function RemoveFileTab(e: Editor, index: int): (r: Editor)
    ensures !(0 <= index < |e.tabs|) ==> r == e
    ensures 0 <= index < |e.tabs| ==> r.tabs == Without(e.tabs, index)
    ensures 0 <= index < |e.tabs| && CurrentIndex(e) == index ==> r.current.None?
    ensures Valid(e) ==> Valid(r)
    ensures Valid(e) && r.current.Some? ==>
              e.current.Some? && e.current.value != index && r.tabs[r.current.value] == e.tabs[e.current.value]
  {
    if !(0 <= index < |e.tabs|) then e
    else
      var current :=
        if CurrentIndex(e) == index then None
        else if index < CurrentIndex(e) then Some(e.current.value - 1)
        else e.current;
      Editor(Without(e.tabs, index), current)
  }

  /** ASCII case folding, for _wcsicmp. */
  function Fold(c: char): char
  {
    if 'A' <= c <= 'Z' then (c as int - 'A' as int + 'a' as int) as char else c
  }

  predicate SameIgnoringCase(a: seq<char>, b: seq<char>)
  {
    |a| == |b| && forall i :: 0 <= i < |a| ==> Fold(a[i]) == Fold(b[i])
  }

  /** FindFileTab (editor.c:449-470): the index of the first tab whose name
      matches ignoring case, or -1; -1 also for no name. */
  function FindFileTab(e: Editor, fileName: Option<seq<char>>): (i: int)
    ensures -1 <= i < |e.tabs|
    ensures i >= 0 ==> fileName.Some? && SameIgnoringCase(fileName.value, e.tabs[i].fileName)
    ensures i >= 0 ==> forall j :: 0 <= j < i ==> !SameIgnoringCase(fileName.value, e.tabs[j].fileName)
    ensures i == -1 && fileName.Some? ==>
              forall j :: 0 <= j < |e.tabs| ==> !SameIgnoringCase(fileName.value, e.tabs[j].fileName)
  {
    if fileName.None? then -1 else FindFrom(e.tabs, fileName.value, 0)
  }

  function FindFrom(tabs: seq<Tab>, name: seq<char>, index: nat): (i: int)
    requires index <= |tabs|
    requires forall j :: 0 <= j < index ==> !SameIgnoringCase(name, tabs[j].fileName)
    ensures -1 <= i < |tabs|
    ensures i >= 0 ==> SameIgnoringCase(name, tabs[i].fileName)
    ensures i >= 0 ==> forall j :: 0 <= j < i ==> !SameIgnoringCase(name, tabs[j].fileName)
    ensures i == -1 ==> forall j :: 0 <= j < |tabs| ==> !SameIgnoringCase(name, tabs[j].fileName)
    decreases |tabs| - index
  {
    if index == |tabs| then -1
    else if SameIgnoringCase(name, tabs[index].fileName) then index
    else FindFrom(tabs, name, index + 1)
  }

  /** SwitchFileTab (editor.c:495-524): make tab `index` current. */
  function SwitchFileTab(e: Editor, index: nat): (r: Editor)
    requires index < |e.tabs|
    ensures r.tabs == e.tabs && r.current == Some(index) && Valid(r)
  {
    if index != CurrentIndex(e) then e.(current := Some(index)) else e
  }

  /** HasUserTabs (editor.c:526-540): false without a current tab, and for
      a lone, unmodified, unnamed tab. */
  function HasUserTabs(e: Editor, currentModified: bool): (has: bool)
    requires Valid(e)
    ensures !has <==> (e.current.None? ||
                       (|e.tabs| <= 1 && !currentModified && e.tabs[e.current.value].fileName == []))
  {
    if e.current.None? then false
    else !(|e.tabs| <= 1 && !currentModified && e.tabs[e.current.value].fileName == [])
  }

  // ---------------------------------------------------------------------
  // Opening and closing files

  /** OpenNewFile (editor.c:542-553): a new unnamed tab at the head,
      made current. */
  function OpenNewFile(e: Editor, createOk: bool): (r: Option<Editor>)
    ensures r.None? <==> !createOk
    ensures r.Some? ==> r.value.tabs == [Tab("")] + e.tabs && r.value.current == Some(0)
  {
    match AddFileTab(e, None, createOk)
    case None => None
    case Some(added) => Some(SwitchFileTab(added, 0))
  }

  /** What the user and the system answer while a file is opened: the
      file picked (None for a cancelled dialog), whether its text could be
      read and a tab created, and whether the lone existing tab is
      modified. */
  datatype OpenAnswers = OpenAnswers(picked: Option<seq<char>>, readOk: bool, createOk: bool, loneModified: bool)

  datatype Opened = OpenedOk(after: Editor) | Cancelled | Failed

  /** True when the editor holds only an unnamed, unmodified tab, which an
      opened file replaces. */
  predicate LoneBlankTab(e: Editor, modified: bool)
  {
    |e.tabs| == 1 && e.tabs[0].fileName == [] && !modified
  }

  /** OpenExistingFile (editor.c:555-641): a file already open is switched
      to; otherwise it gets a new tab at the head, made current, and a lone
      blank tab is dropped. */
  function OpenExistingFile(e: Editor, a: OpenAnswers): (r: Opened)
    requires Valid(e)
    ensures a.picked.None? <==> r.Cancelled?
    ensures r.Failed? <==> a.picked.Some? && FindFileTab(e, a.picked) < 0 && !(a.readOk && a.createOk)
    ensures r.OpenedOk? ==> Valid(r.after) && r.after.current.Some?
    ensures r.OpenedOk? ==> SameIgnoringCase(a.picked.value, r.after.tabs[r.after.current.value].fileName)
    ensures r.OpenedOk? && FindFileTab(e, a.picked) < 0 ==>
              r.after.tabs == [Tab(a.picked.value)] + (if LoneBlankTab(e, a.loneModified) then [] else e.tabs)
    ensures r.OpenedOk? && FindFileTab(e, a.picked) >= 0 ==> r.after.tabs == e.tabs
  {
    if a.picked.None? then Cancelled
    else
      var index := FindFileTab(e, a.picked);
      if index >= 0 then OpenedOk(SwitchFileTab(e, index))
      else
        var replace := LoneBlankTab(e, a.loneModified);
        if !a.readOk then Failed
        else match AddFileTab(e, a.picked, a.createOk)
          case None => Failed
          case Some(added) =>
            var kept := if replace then RemoveFileTab(added, 1) else added;
            assert replace ==> kept.tabs == [Tab(a.picked.value)];
            assert SameIgnoringCase(a.picked.value, a.picked.value);
            OpenedOk(SwitchFileTab(kept, 0))
  }

  /** CONTINUE_OPERATION or ABORT_OPERATION, with the editor afterwards. */
  datatype Closed = Continue(after: Editor) | Abort

  /** CloseCurrentFile (editor.c:782-828). `proceed` is ValidateFileSaved's
      answer. The last tab is replaced by a new blank one; otherwise the
      tab before the current one becomes current (the next one when the
      first tab closes) and the current tab is removed. */
  function CloseCurrentFile(e: Editor, proceed: bool, createOk: bool): (r: Closed)
    requires Valid(e)
    ensures e.current.None? ==> r == Continue(e)
    ensures r.Abort? <==> e.current.Some? && (!proceed || (|e.tabs| <= 1 && !createOk))
    ensures r.Continue? ==> Valid(r.after)
    ensures r.Continue? && e.current.Some? && |e.tabs| <= 1 ==> r.after == Editor([Tab("")], Some(0))
    ensures r.Continue? && e.current.Some? && |e.tabs| > 1 ==>
              var c := e.current.value;
              r.after.tabs == Without(e.tabs, c) &&
              r.after.current == Some(if c == 0 then 0 else c - 1) &&
              r.after.tabs[r.after.current.value] == e.tabs[if c == 0 then 1 else c - 1]
  {
    if e.current.None? then Continue(e)
    else if !proceed then Abort
    else if |e.tabs| <= 1 then
      match OpenNewFile(e, createOk)
      case None => Abort
      case Some(blank) =>
        var r := RemoveFileTab(blank, 1);
        assert r.tabs == [Tab("")];
        Continue(r)
    else
      var remove := e.current.value;
      var switchTo := if remove == 0 then 1 else remove - 1;
      Continue(RemoveFileTab(SwitchFileTab(e, switchTo), remove))
  }

  /** Closing the current file never leaves the editor without a current
      tab when there was one, and removes exactly one tab unless it was the
      last. */
  lemma CloseKeepsCurrent(e: Editor, proceed: bool, createOk: bool)
    requires Valid(e) && e.current.Some?
    requires CloseCurrentFile(e, proceed, createOk).Continue?
    ensures CloseCurrentFile(e, proceed, createOk).after.current.Some?
    ensures |e.tabs| > 1 ==> |CloseCurrentFile(e, proceed, createOk).after.tabs| + 1 == |e.tabs|
    ensures |e.tabs| <= 1 ==> |CloseCurrentFile(e, proceed, createOk).after.tabs| == 1
  {
  }

  /** Adding a tab and removing it again gives back the editor's tabs;
      the current tab survives, one place lower again. */
  lemma AddThenRemove(e: Editor, fileName: Option<seq<char>>)
    requires Valid(e)
    ensures var added := AddFileTab(e, fileName, true).value;
            RemoveFileTab(added, 0) == e
  {
    var added := AddFileTab(e, fileName, true).value;
    assert Without(added.tabs, 0) == added.tabs[1..] == e.tabs;
    assert RemoveFileTab(added, 0).current == e.current;
  }

  /** A file opened by name is found by that name afterwards. */
  lemma OpenThenFind(e: Editor, a: OpenAnswers)
    requires Valid(e) && OpenExistingFile(e, a).OpenedOk?
    ensures FindFileTab(OpenExistingFile(e, a).after, a.picked) >= 0
  {
  }

  /** Closing the only tab leaves a lone blank tab, which is not a user
      tab, so the close items are disabled afterwards. */
  lemma CloseLastLeavesNoUserTabs(e: Editor)
    requires Valid(e) && e.current.Some? && |e.tabs| == 1
    ensures var r := CloseCurrentFile(e, true, true);
            r.Continue? && !HasUserTabs(r.after, false)
  {
  }

  /** A tab opened for a named file is a user tab, modified or not. */
  lemma OpenedFileIsUserTab(e: Editor, a: OpenAnswers, modified: bool)
    requires Valid(e) && OpenExistingFile(e, a).OpenedOk? && |a.picked.value| > 0
    ensures HasUserTabs(OpenExistingFile(e, a).after, modified)
  {
  }
}
