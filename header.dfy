/** The header's quick-command overlay and the navigation link highlight. */
module HeaderBar {
  import opened Wrappers
  import opened Text
  import opened Seqs

  datatype Command = Command(id: string, labelText: string, path: string)

  /** The five commands, in menu order. */
  const Commands: seq<Command> := [
    Command("projects", "projects", "/repos"),
    Command("learning", "learning", "/courses"),
    Command("dashboard", "dashboard", "/dashboard"),
    Command("team", "team", "/team"),
    Command("profile", "profile", "/user")
  ]

  /** The commands whose `label` contains `q`, in their order. */
  function Matching(cs: seq<Command>, q: string): (r: seq<Command>)
    ensures |r| <= |cs|
    ensures forall c :: c in r <==> c in cs && Contains(c.labelText, q)
  {
    SelectMembers(cs, (c: Command) => Contains(c.labelText, q));
    Select(cs, (c: Command) => Contains(c.labelText, q))
  }

  /** `filtered`: every command while the normalised query is shorter than two
      characters, otherwise those whose `label` contains it. */
  function Filtered(query: string): (r: seq<Command>)
    ensures |TrimLower(query)| < 2 ==> r == Commands
    ensures |TrimLower(query)| >= 2 ==>
      forall c :: c in r <==> c in Commands && Contains(c.labelText, TrimLower(query))
    ensures |r| <= |Commands|
  {
    var q := TrimLower(query);
    if |q| < 2 then Commands else Matching(Commands, q)
  }

  /** Filtering a concatenation filters each part. */
  lemma MatchingAppend(a: seq<Command>, b: seq<Command>, q: string)
    ensures Matching(a + b, q) == Matching(a, q) + Matching(b, q)
  {
    SelectAppend(a, b, (c: Command) => Contains(c.labelText, q));
  }

  /** The matching commands keep their relative order: of two listed commands,
      the earlier one comes earlier in the input. */
  lemma MatchingKeepsOrder(cs: seq<Command>, q: string, i: nat, j: nat)
    requires i < j < |Matching(cs, q)|
    ensures exists a, b :: 0 <= a < b < |cs| && Matching(cs, q)[i] == cs[a] && Matching(cs, q)[j] == cs[b]
  {
    SelectKeepsOrder(cs, (c: Command) => Contains(c.labelText, q), i, j);
  }

  /** The overlay lists its commands in menu order, whatever the query. */
  lemma FilteredKeepsMenuOrder(query: string, i: nat, j: nat)
    requires i < j < |Filtered(query)|
    ensures exists a, b :: 0 <= a < b < |Commands| && Filtered(query)[i] == Commands[a] && Filtered(query)[j] == Commands[b]
  {
    if |TrimLower(query)| >= 2 {
      MatchingKeepsOrder(Commands, TrimLower(query), i, j);
    } else {
      assert Filtered(query)[i] == Commands[i] && Filtered(query)[j] == Commands[j];
    }
  }

  /** Surrounding white space in the query never changes the list. */
  lemma FilteredIgnoresPadding(query: string)
    ensures Filtered(Trim(query)) == Filtered(query)
  {
    TrimIdempotent(query);
    assert TrimLower(Trim(query)) == ToLower(Trim(Trim(query))) == TrimLower(query);
    FilteredByNormalForm(Trim(query), query);
  }

  lemma FilteredByNormalForm(a: string, b: string)
    requires TrimLower(a) == TrimLower(b)
    ensures Filtered(a) == Filtered(b)
  {
  }

  /** The highlighted position is a command of the list, or the list is empty and
      the position is 0 or -1 (one arrow-down press on an empty list gives
      `min(0 + 1, 0 - 1)`). */
  predicate IndexOk(index: int, n: nat) {
    if n > 0 then 0 <= index < n else index == 0 || index == -1
  }

  /** The command the Enter key would run: `filtered[index]`, if there is one. */
  function Selected(filtered: seq<Command>, index: int): (r: Option<Command>)
    ensures r.Some? <==> 0 <= index < |filtered|
    ensures r.Some? ==> r.value == filtered[index]
  {
    if 0 <= index < |filtered| then Some(filtered[index]) else None
  }

  /** `e.key`, for the keys the handler looks at; `OtherKey` stands for the rest. */
  datatype Key = Slash | Escape | ArrowDown | ArrowUp | Enter | OtherKey

  function Min(a: int, b: int): int { if a <= b then a else b }
  function Max(a: int, b: int): int { if a >= b then a else b }

  /** `CommandBar`: whether the overlay is open, the query, the memoised
      `filtered` list, the highlighted position, and the paths handed to
      `router.push`, oldest first. */
  class CommandBar {
    var open: bool
    var query: string
    var filtered: seq<Command>
    var index: int
    var navigated: seq<string>

    /** The highlighted position fits the listed commands. */
    predicate Valid()
      reads this`index, this`filtered
    {
      IndexOk(index, |filtered|)
    }

    /** The listed commands are those the query selects. */
    predicate Synced()
      reads this`query, this`filtered
    {
      filtered == Filtered(query)
    }

    constructor ()
      ensures Valid() && Synced()
      ensures !open && query == [] && index == 0 && navigated == []
    {
      open, query, index, navigated := false, [], 0, [];
      filtered := Filtered([]);
    }

    /** The window `keydown` handler. Closed, only an unmodified `/` outside a text
        field opens the overlay. Open: Escape closes it, the arrows move the
        highlight (down stops at the last command, up at the first), and Enter runs
        the highlighted command, if any, and closes. Other keys change nothing. */
    method OnKey(key: Key, typing: bool)
      requires Valid()
      modifies this`open, this`index, this`navigated
      ensures Valid()
      ensures !old(open) ==>
        && open == (!typing && key.Slash?)
        && index == old(index) && navigated == old(navigated)
      ensures old(open) && key.Escape? ==> !open && index == old(index) && navigated == old(navigated)
      ensures old(open) && key.ArrowDown? ==>
        open && index == Min(old(index) + 1, |filtered| - 1) && navigated == old(navigated)
      ensures old(open) && key.ArrowUp? ==>
        open && index == Max(0, old(index) - 1) && navigated == old(navigated)
      ensures old(open) && key.Enter? ==>
        var cmd := Selected(filtered, old(index));
        && index == old(index)
        && (cmd.Some? ==> !open && navigated == old(navigated) + [cmd.value.path])
        && (cmd.None? ==> open && navigated == old(navigated))
      ensures old(open) && (key.Slash? || key.OtherKey?) ==>
        open && index == old(index) && navigated == old(navigated)
    {
      if !open && !typing && key.Slash? {
        open := true;
      } else if open {
        var n := |filtered|;
        if key.Escape? {
          open := false;
        }
        if key.ArrowDown? {
          index := Min(index + 1, n - 1);
        }
        if key.ArrowUp? {
          index := Max(0, index - 1);
        }
        if key.Enter? {
          var cmd := Selected(filtered, index);
          if cmd.Some? {
            navigated := navigated + [cmd.value.path];
            open := false;
          }
        }
      }
    }

    /** The "/ Command" button. */
    method OpenButton()
      modifies this`open
      ensures open
    {
      open := true;
    }

    /** A mouse press on the backdrop closes the overlay. */
    method Backdrop()
      modifies this`open
      ensures !open
    {
      open := false;
    }

    /** Typing in the input replaces the query, which recomputes `filtered`, and
        highlights the first command. */
    method ChangeQuery(q: string)
      modifies this`query, this`filtered, this`index
      ensures Valid() && Synced()
      ensures query == q && index == 0
    {
      query := q;
      filtered := Filtered(q);
      index := 0;
    }

    /** Clicking the `i`-th listed command runs it and closes the overlay. */
    method ClickCommand(i: nat)
      requires open && i < |filtered|
      modifies this`open, this`navigated
      ensures !open && navigated == old(navigated) + [filtered[i].path]
    {
      navigated := navigated + [filtered[i].path];
      open := false;
    }

    /** Hovering the `i`-th listed command highlights it. */
    method MouseEnter(i: nat)
      requires Valid() && open && i < |filtered|
      modifies this`index
      ensures Valid()
      ensures index == i
    {
      index := i;
    }
  }

  /** `linkClass(path)`: the current page's link is highlighted. */
  function LinkClass(pathname: string, path: string): (r: string)
    ensures pathname == path <==> r == "text-pink-400"
  {
    if pathname == path then "text-pink-400" else "text-gray-400 hover:text-white"
  }
}
