/**
  The block splitter of the AdapterRemoval settings-file parser: the lines of
  the file are dealt out into named blocks. The first non-blank line always
  goes to `header`; after it, a line starting with `[` opens (or re-opens,
  emptying it) the block named by the line without its surrounding brackets,
  and every other non-blank line is appended to the open block.
 */
module SettingsBlocks {
  import opened PyText

  const Header: string := "header"
  const Brackets: set<char> := {'[', ']'}

  type Blocks = map<string, seq<string>>

  /**
    The splitter's state between two lines: the title of the open block and
    the blocks so far. The empty title stands for Python's falsy `block_title`
    (`None` before the first line, or `''` after a line such as `[]`).
   */
  datatype SplitState = SplitState(title: string, blocks: Blocks)

  /** `header` always exists, and so does the open block. */
  predicate Inv(st: SplitState)
  {
    Header in st.blocks && (st.title != "" ==> st.title in st.blocks)
  }

  function Start(): (st: SplitState)
    ensures Inv(st)
  {
    SplitState("", map[Header := []])
  }

  /** `line.rstrip('\n')`. */
  function Chomp(raw: string): string
  {
    RStrip(raw, {'\n'})
  }

  /** Only a line that is empty once its newlines are gone is skipped. */
  predicate IsBlank(raw: string)
  {
    Chomp(raw) == ""
  }

  predicate IsOpener(line: string)
  {
    StartsWith(line, "[")
  }

  /** One iteration of the loop over the file's lines. */
  function Step(st: SplitState, raw: string): (st': SplitState)
    requires Inv(st)
    ensures Inv(st')
  {
    var line := Chomp(raw);
    if line == "" then st
    else if st.title == "" then SplitState(Header, st.blocks[Header := st.blocks[Header] + [line]])
    else if IsOpener(line) then
      var name := Strip(line, Brackets);
      SplitState(name, st.blocks[name := []])
    else SplitState(st.title, st.blocks[st.title := st.blocks[st.title] + [line]])
  }

  /** The loop over `lines`, from state `st`. */
  function Run(st: SplitState, lines: seq<string>): (st': SplitState)
    requires Inv(st)
    ensures Inv(st')
    decreases |lines|
  {
    if lines == [] then st else Run(Step(st, lines[0]), lines[1..])
  }

  /** The blocks of a whole file. */
  function BlocksOf(lines: seq<string>): Blocks
  {
    Run(Start(), lines).blocks
  }

  /** The lines that are not blank, in order. */
  function NonBlank(lines: seq<string>): seq<string>
  {
    if lines == [] then []
    else if IsBlank(lines[0]) then NonBlank(lines[1..])
    else [lines[0]] + NonBlank(lines[1..])
  }

  /** What the lines add to an open block: the non-blank ones, newlines removed, in order. */
  function Content(lines: seq<string>): seq<string>
  {
    if lines == [] then []
    else if IsBlank(lines[0]) then Content(lines[1..])
    else [Chomp(lines[0])] + Content(lines[1..])
  }

  /** Splits the lines of a settings file into its blocks. */
  method SplitSettings(lines: seq<string>) returns (blocks: Blocks)
    ensures blocks == BlocksOf(lines)
  {
    blocks := map[Header := []];
    var title := "";
    var i := 0;
    while i < |lines|
      invariant 0 <= i <= |lines|
      invariant Inv(SplitState(title, blocks))
      invariant Run(SplitState(title, blocks), lines[i..]) == Run(Start(), lines)
    {
      assert lines[i..][1..] == lines[i + 1..];
      var line := Chomp(lines[i]);
      if line == "" {
      } else if title == "" {
        title := Header;
        blocks := blocks[title := blocks[title] + [line]];
      } else if IsOpener(line) {
        title := Strip(line, Brackets);
        blocks := blocks[title := []];
      } else {
        blocks := blocks[title := blocks[title] + [line]];
      }
      i := i + 1;
    }
    assert lines[i..] == [];
  }

  /** Running over two pieces of input is running over the first, then the second. */
  lemma {:induction false} RunAppend(st: SplitState, a: seq<string>, b: seq<string>)
    requires Inv(st)
    ensures Run(st, a + b) == Run(Run(st, a), b)
    decreases |a|
  {
    if a != [] {
      assert (a + b)[1..] == a[1..] + b;
      RunAppend(Step(st, a[0]), a[1..], b);
    } else {
      assert a + b == b;
    }
  }

  /** Removing every blank line changes nothing, whatever the state. */
  lemma {:induction false} BlankLinesIgnored(st: SplitState, lines: seq<string>)
    requires Inv(st)
    ensures Run(st, lines) == Run(st, NonBlank(lines))
    decreases |lines|
  {
    if lines != [] {
      BlankLinesIgnored(Step(st, lines[0]), lines[1..]);
      if IsBlank(lines[0]) {
        BlankLinesIgnored(st, lines[1..]);
      } else {
        assert ([lines[0]] + NonBlank(lines[1..]))[1..] == NonBlank(lines[1..]);
      }
    }
  }

  /** So inserting a blank line anywhere in a file yields the same blocks. */
  lemma BlankLineInsertion(before: seq<string>, blank: string, after: seq<string>)
    requires IsBlank(blank)
    ensures BlocksOf(before + [blank] + after) == BlocksOf(before + after)
  {
    RunAppend(Start(), before + [blank], after);
    RunAppend(Start(), before, [blank]);
    RunAppend(Start(), before, after);
  }

  /**
    A line that starts with whitespace other than a newline (a line of spaces,
    a tab, a carriage return) is neither skipped nor an opener: it is
    appended to the open block, or to `header` when no block is open.
   */
  lemma WhitespaceLineKept(st: SplitState, raw: string)
    requires Inv(st) && raw != [] && raw[0] in Whitespace - {'\n'}
    ensures !IsBlank(raw)
    ensures var t := if st.title == "" then Header else st.title;
      Step(st, raw) == SplitState(t, st.blocks[t := st.blocks[t] + [Chomp(raw)]])
  {
    var line := Chomp(raw);
    assert raw[0] !in {'\n'};
    assert |line| > 0 && line[0] == raw[0];
    assert line[..1] != "[";
  }

  /**
    The first non-blank line of a file goes to `header`, opener or not, and the
    state after it is `header` holding just that line.
   */
  lemma FirstLineToHeader(lines: seq<string>, k: nat)
    requires k < |lines| && !IsBlank(lines[k])
    requires forall j :: 0 <= j < k ==> IsBlank(lines[j])
    ensures Run(Start(), lines[..k + 1]) == SplitState(Header, map[Header := [Chomp(lines[k])]])
    ensures BlocksOf(lines) == Run(SplitState(Header, map[Header := [Chomp(lines[k])]]), lines[k + 1..]).blocks
  {
    var blanks := lines[..k];
    BlankLinesIgnored(Start(), blanks);
    AllBlank(blanks);
    assert Run(Start(), blanks) == Start();
    RunAppend(Start(), blanks, [lines[k]]);
    assert lines[..k + 1] == blanks + [lines[k]];
    assert [lines[k]][1..] == [];
    assert Run(Start(), [lines[k]]) == Step(Start(), lines[k]);
    var st1 := SplitState(Header, map[Header := [Chomp(lines[k])]]);
    var line := Chomp(lines[k]);
    assert line != "";
    assert Start().blocks[Header] + [line] == [line];
    assert Start().blocks[Header := [line]] == map[Header := [line]];
    assert Step(Start(), lines[k]) == st1;
    assert Run(Start(), lines[..k + 1]) == st1;
    RunAppend(Start(), lines[..k + 1], lines[k + 1..]);
    assert lines == lines[..k + 1] + lines[k + 1..];
  }

  lemma {:induction false} AllBlank(lines: seq<string>)
    requires forall j :: 0 <= j < |lines| ==> IsBlank(lines[j])
    ensures NonBlank(lines) == []
    decreases |lines|
  {
    if lines != [] {
      AllBlank(lines[1..]);
    }
  }

  /**
    While no opener comes, the non-blank lines are appended to the open block
    in input order and nothing else changes.
   */
  lemma {:induction false} ContentAppended(st: SplitState, lines: seq<string>)
    requires Inv(st) && st.title != ""
    requires forall j :: 0 <= j < |lines| ==> !IsOpener(Chomp(lines[j]))
    ensures Run(st, lines) == SplitState(st.title, st.blocks[st.title := st.blocks[st.title] + Content(lines)])
    decreases |lines|
  {
    if lines == [] {
      assert st.blocks[st.title] + [] == st.blocks[st.title];
      assert st.blocks[st.title := st.blocks[st.title]] == st.blocks;
    } else {
      var st1 := Step(st, lines[0]);
      ContentAppended(st1, lines[1..]);
      if IsBlank(lines[0]) {
      } else {
        assert st.blocks[st.title] + [Chomp(lines[0])] + Content(lines[1..])
            == st.blocks[st.title] + Content(lines);
      }
    }
  }

  /**
    After the first line, an opener `[name]` (re)opens block `name` empty, so
    a block whose name is reused holds only what follows its last opener.
   */
  lemma OpenerResets(st: SplitState, opener: string, lines: seq<string>)
    requires Inv(st) && st.title != ""
    requires IsOpener(Chomp(opener)) && Strip(Chomp(opener), Brackets) != ""
    requires forall j :: 0 <= j < |lines| ==> !IsOpener(Chomp(lines[j]))
    ensures var name := Strip(Chomp(opener), Brackets);
      Run(st, [opener] + lines) == SplitState(name, st.blocks[name := Content(lines)])
  {
    var name := Strip(Chomp(opener), Brackets);
    var st1 := SplitState(name, st.blocks[name := []]);
    assert Chomp(opener) != "";
    assert Step(st, opener) == st1;
    var input := [opener] + lines;
    assert input[0] == opener && input[1..] == lines;
    assert Run(st, input) == Run(st1, lines);
    ContentAppended(st1, lines);
    assert st1.blocks[name] + Content(lines) == Content(lines);
    assert st1.blocks[name := Content(lines)] == st.blocks[name := Content(lines)];
  }

  /**
    An opener whose name strips to nothing (`[]`, `[[`) leaves no block open,
    so the next non-blank line goes to `header` again.
   */
  lemma EmptyOpenerBackToHeader(st: SplitState, opener: string, line: string)
    requires Inv(st) && st.title != ""
    requires IsOpener(Chomp(opener)) && Strip(Chomp(opener), Brackets) == ""
    requires !IsBlank(line)
    ensures Run(st, [opener, line]) ==
      SplitState(Header, st.blocks["" := []][Header := st.blocks[Header] + [Chomp(line)]])
  {
    var st1 := Step(st, opener);
    assert st1 == SplitState("", st.blocks["" := []]);
    assert st1.blocks[Header] == st.blocks[Header];
    assert [opener, line][1..] == [line];
    assert Run(st, [opener, line]) == Run(st1, [line]);
    assert [line][1..] == [];
    assert Run(st1, [line]) == Step(st1, line);
  }
}
