/**
 * `get_workspace_context`: reading the output of `terraform workspace list`,
 * one workspace per line, the selected one marked with a leading "* ".
 */
module Workspaces {
  import opened Text

  /** `{"current": ..., "all": [...]}`. */
  datatype WorkspaceContext = WorkspaceContext(current: string, all: seq<string>)

  const DefaultWorkspace: string := "default"
  const SelectedMarker: string := "* "

  /** A stripped line that names the selected workspace. */
  predicate IsSelected(stripped: string)
  {
    StartsWith(stripped, SelectedMarker)
  }

  /** A name as the listing can record it: non-empty, with no trailing whitespace. */
  predicate WellFormedName(name: string)
  {
    name != [] && !IsSpace(name[|name| - 1])
  }

  /**
   * The name recorded for a stripped, non-blank line: on a selected line
   * `replace` removes the leading "* " and then every non-overlapping "* "
   * that a left-to-right scan of the rest finds; any other line is recorded
   * as it is.
   */
  function Listed(stripped: string): (name: string)
    ensures |name| <= |stripped|
    ensures IsSelected(stripped) ==> |name| <= |stripped| - |SelectedMarker|
    ensures WellFormedName(stripped) ==> WellFormedName(name) && name[|name| - 1] == stripped[|stripped| - 1]
  {
    if IsSelected(stripped) then
      if !IsSpace(stripped[|stripped| - 1]) then
        ReplaceKeepsLast(stripped, SelectedMarker, "");
        Replace(stripped, SelectedMarker, "")
      else Replace(stripped, SelectedMarker, "")
    else stripped
  }

  /** What one line contributes: nothing when blank, else its recorded name. */
  function LineNames(line: string): seq<string>
  {
    var t := Strip(line);
    if t == "" then [] else [Listed(t)]
  }

  /** The workspace names recorded for a sequence of lines, in order. */
  function Names(lines: seq<string>): (names: seq<string>)
    ensures |names| <= |lines|
  {
    if lines == [] then [] else Names(lines[..|lines| - 1]) + LineNames(lines[|lines| - 1])
  }

  /** The workspace reported as current: the last selected line's, or "default". */
  function Selected(lines: seq<string>): (current: string)
    ensures WellFormedName(current)
  {
    if lines == [] then DefaultWorkspace
    else
      var t := Strip(lines[|lines| - 1]);
      if IsSelected(t) then Listed(t) else Selected(lines[..|lines| - 1])
  }

  /** Some line of `lines` is marked as selected. */
  predicate HasSelected(lines: seq<string>)
  {
    exists i :: 0 <= i < |lines| && IsSelected(Strip(lines[i]))
  }

  /**
   * `get_workspace_context` over the command's standard output (the command
   * itself is not run here): split into lines, skip blank ones, record each
   * name and remember the last selected one.
   */
  method GetWorkspaceContext(out: string) returns (ctx: WorkspaceContext)
    ensures ctx.all == Names(Split(out, '\n'))
    ensures ctx.current == Selected(Split(out, '\n'))
  {
    var current := DefaultWorkspace;
    var all: seq<string> := [];
    var lines := Split(out, '\n');
    for i := 0 to |lines|
      invariant all == Names(lines[..i])
      invariant current == Selected(lines[..i])
    {
      assert lines[..i + 1][..i] == lines[..i];
      var stripped := Strip(lines[i]);
      if stripped == "" {
        continue;
      } else if StartsWith(stripped, SelectedMarker) {
        current := Replace(stripped, SelectedMarker, "");
        all := all + [Replace(stripped, SelectedMarker, "")];
      } else {
        all := all + [stripped];
      }
    }
    assert lines[..|lines|] == lines;
    ctx := WorkspaceContext(current, all);
  }

  // ---------------------------------------------------------------------------
  // Properties of the parse.

  /** Names are collected line by line: the parse of a concatenation is the concatenation. */
  lemma {:induction false} NamesAppend(a: seq<string>, b: seq<string>)
    ensures Names(a + b) == Names(a) + Names(b)
    decreases |b|
  {
    if b == [] {
      assert a + b == a;
    } else {
      var b', x := b[..|b| - 1], b[|b| - 1];
      calc {
        Names(a + b);
        { assert (a + b)[..|a + b| - 1] == a + b' && (a + b)[|a + b| - 1] == x; }
        Names(a + b') + LineNames(x);
        { NamesAppend(a, b'); }
        Names(a) + Names(b') + LineNames(x);
        Names(a) + Names(b);
      }
    }
  }

  /** Every recorded name is non-empty and does not end in whitespace. */
  lemma {:induction false} NamesWellFormed(lines: seq<string>)
    ensures forall i :: 0 <= i < |Names(lines)| ==> WellFormedName(Names(lines)[i])
    decreases |lines|
  {
    if lines != [] {
      var prefix, line := lines[..|lines| - 1], lines[|lines| - 1];
      NamesWellFormed(prefix);
      assert LineNames(line) == [] || (LineNames(line) == [Listed(Strip(line))] && WellFormedName(Listed(Strip(line))));
      assert Names(lines) == Names(prefix) + LineNames(line);
    }
  }

  /** A blank line contributes nothing. */
  lemma BlankLineSkipped(a: seq<string>, line: string, b: seq<string>)
    requires Strip(line) == ""
    ensures Names(a + [line] + b) == Names(a + b)
  {
    NamesAppend(a + [line], b);
    NamesAppend(a, [line]);
    NamesAppend(a, b);
    assert [line][..0] == [];
    assert Names([line]) == [];
    assert Names(a + [line]) == Names(a);
  }

  /** A non-blank line contributes exactly its recorded name; unmarked lines are kept verbatim. */
  lemma NonBlankLineListed(line: string)
    requires Strip(line) != ""
    ensures Names([line]) == [Listed(Strip(line))]
    ensures !IsSelected(Strip(line)) ==> Names([line]) == [Strip(line)]
  {
    assert [line][..0] == [];
  }

  /** Without any marked line the current workspace is "default". */
  lemma {:induction false} SelectedDefault(lines: seq<string>)
    requires !HasSelected(lines)
    ensures Selected(lines) == DefaultWorkspace
    decreases |lines|
  {
    if lines != [] {
      var prefix := lines[..|lines| - 1];
      assert !IsSelected(Strip(lines[|lines| - 1]));
      forall i | 0 <= i < |prefix| ensures !IsSelected(Strip(prefix[i])) {
        assert prefix[i] == lines[i];
      }
      SelectedDefault(prefix);
    }
  }

  /** With marked lines the current workspace is the last marked line's name. */
  lemma {:induction false} SelectedIsLastMarked(lines: seq<string>, j: nat)
    requires j < |lines| && IsSelected(Strip(lines[j]))
    requires forall k :: j < k < |lines| ==> !IsSelected(Strip(lines[k]))
    ensures Selected(lines) == Listed(Strip(lines[j]))
    decreases |lines|
  {
    if j < |lines| - 1 {
      var prefix := lines[..|lines| - 1];
      assert !IsSelected(Strip(lines[|lines| - 1]));
      assert prefix[j] == lines[j];
      forall k | j < k < |prefix| ensures !IsSelected(Strip(prefix[k])) {
        assert prefix[k] == lines[k];
      }
      SelectedIsLastMarked(prefix, j);
    }
  }

  /** The current workspace is always one of the recorded names, unless it is the default. */
  lemma {:induction false} SelectedIsListed(lines: seq<string>)
    ensures HasSelected(lines) ==> Selected(lines) in Names(lines)
    ensures !HasSelected(lines) ==> Selected(lines) == DefaultWorkspace
    decreases |lines|
  {
    if !HasSelected(lines) {
      SelectedDefault(lines);
    } else {
      var prefix := lines[..|lines| - 1];
      var t := Strip(lines[|lines| - 1]);
      assert lines == prefix + [lines[|lines| - 1]];
      if !IsSelected(t) {
        var i :| 0 <= i < |lines| && IsSelected(Strip(lines[i]));
        assert i < |prefix| && prefix[i] == lines[i];
        SelectedIsListed(prefix);
      } else {
        assert t != "";
      }
    }
  }

  /**
   * A marked line loses its leading marker, and then every non-overlapping
   * "* " that a left-to-right scan of the rest finds.
   */
  lemma ListedDropsMarker(t: string)
    requires IsSelected(t)
    ensures Listed(t) == Replace(t[2..], SelectedMarker, "")
  {
    assert t[..2] == SelectedMarker;
  }
}
