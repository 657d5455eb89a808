/** The command alias table: `/proxy alias add` and `/proxy alias remove`
    on the configuration's plain object from lower-cased alias to the
    command it stands for and whether the typed alias is also passed on to
    the server. Saving the configuration and the chat replies' formatting are
    not modelled; the replies are returned as data. */
module Aliases {
  import opened Common

  /** One alias: the command it runs and the passthrough flag. */
  datatype Alias = Alias(command: string, passthrough: bool)

  /** The `command` argument: absent, one string, or the words of a
      greedy argument. */
  datatype Command = NoCommand | Text(s: string) | Words(ws: seq<string>)

  /** What the command answers. */
  datatype Reply =
    | AddUsage
    | LeadingSlash
    | Created(alias: string, command: string, passthrough: bool)
    | RemoveUsage
    | Removed(alias: string)
    | NotFound(alias: string)

  /** `config.aliases`, a plain object: its own entries, and the object
      its prototype was set to through an alias named `__proto__` (`None`
      while it is still `Object.prototype`). */
  datatype Table = Table(own: map<string, Alias>, proto: Option<Alias>)

  /** The outcome: `config.aliases` afterwards (`None` while the
      configuration has none) and the reply. */
  datatype Outcome = Outcome(aliases: Option<Table>, reply: Reply)

  /** `config.aliases || {}`: the table, or a new object without entries. */
  function OrNew(aliases: Option<Table>): (t: Table)
    ensures aliases.Some? ==> t == aliases.value
    ensures aliases.None? ==> t.own == map[] && t.proto.None?
  {
    if aliases.Some? then aliases.value else Table(map[], None)
  }

  /** The names a plain object inherits from `Object.prototype` that a
      lower-cased alias can spell: every other inherited name holds a
      capital letter. `__proto__` is an accessor whose getter returns the
      prototype. */
  const Inherited: set<string> := {"constructor", "__proto__"}

  /** Whether `aliases[key]` is truthy: an own entry; else, after the
      prototype was replaced, its `command` (a non-empty string) or its
      `passthrough` flag; else an inherited member, all of which are
      functions or objects. */
  predicate Found(t: Table, key: string) {
    if key in t.own then true
    else if t.proto.Some? && key == "command" then t.proto.value.command != ""
    else if t.proto.Some? && key == "passthrough" then t.proto.value.passthrough
    else key in Inherited
  }

  // ---------------------------------------------------------------------
  // Strings

  /** `toLowerCase` on one character, for the ASCII letters. */
  function LowerChar(c: char): (r: char)
    ensures 'A' <= c <= 'Z' ==> 'a' <= r <= 'z' && r as int - c as int == 32
    ensures !('A' <= c <= 'Z') ==> r == c
  {
    if 'A' <= c <= 'Z' then (c as int + 32) as char else c
  }

  /** `s.toLowerCase()`. */
  function Lower(s: string): (r: string)
    ensures |r| == |s| && forall i :: 0 <= i < |s| ==> r[i] == LowerChar(s[i])
  {
    seq(|s|, i requires 0 <= i < |s| => LowerChar(s[i]))
  }

  /** A lower-cased string has no capital letter, so lowering it again
      changes nothing; and two spellings that differ only in case lower to
      the same key. */
  lemma LowerIdempotent(s: string)
    ensures forall i :: 0 <= i < |Lower(s)| ==> !('A' <= Lower(s)[i] <= 'Z')
    ensures Lower(Lower(s)) == Lower(s)
  {
  }

  /** `words.join(' ')`. */
  function Join(ws: seq<string>): (r: string)
    ensures |ws| == 1 ==> r == ws[0]
  {
    if ws == [] then "" else if |ws| == 1 then ws[0] else Join(ws[..|ws| - 1]) + " " + ws[|ws| - 1]
  }

  /** A joined array is empty only when it has no words or a single empty
      word: two empty words already join to a space. */
  lemma {:induction false} JoinEmpty(ws: seq<string>)
    ensures Join(ws) == "" <==> |ws| == 0 || (|ws| == 1 && ws[0] == "")
  {
    if |ws| > 1 {
      assert |Join(ws)| >= 1;
    }
  }

  /** The command text after an array has been joined; absent is empty. */
  function Resolve(c: Command): (r: string)
    ensures c.Text? ==> r == c.s
    ensures c.NoCommand? ==> r == ""
  {
    match c
    case NoCommand => ""
    case Text(s) => s
    case Words(ws) => Join(ws)
  }

  // ---------------------------------------------------------------------
  // Operations

  /** `addAlias`: a missing or empty alias or command is a usage error; an
      alias that lower-cases to something starting with `/` is refused;
      otherwise the lower-cased alias is set, replacing any entry it had,
      in the configuration's table or, when it has none yet, in a new one.
      Assigning to `__proto__` runs its setter instead: the new entry
      becomes the table's prototype and no own entry is added. */
  function Add(aliases: Option<Table>, alias: Option<string>, command: Command, passthrough: bool): (r: Outcome)
    ensures r.reply.AddUsage? <==> alias.None? || alias.value == "" || Resolve(command) == ""
    ensures r.reply.LeadingSlash? <==> !r.reply.AddUsage? && alias.value[0] == '/'
    ensures r.reply.AddUsage? || r.reply.LeadingSlash? ==> r.aliases == aliases
    ensures r.reply.Created? ==>
              var key := Lower(alias.value);
              var table := OrNew(aliases);
              && r.reply == Created(key, Resolve(command), passthrough)
              && r.aliases.Some?
              && (key == "__proto__" ==> r.aliases.value == table.(proto := Some(Alias(Resolve(command), passthrough))))
              && (key != "__proto__" ==>
                    && r.aliases.value.proto == table.proto
                    && key in r.aliases.value.own && r.aliases.value.own[key] == Alias(Resolve(command), passthrough)
                    && forall k :: k != key ==>
                         && (k in r.aliases.value.own <==> k in table.own)
                         && (k in table.own ==> r.aliases.value.own[k] == table.own[k]))
    ensures r.reply.AddUsage? || r.reply.LeadingSlash? || r.reply.Created?
  {
    var text := Resolve(command);
    if alias.None? || alias.value == "" || text == "" then Outcome(aliases, AddUsage)
    else
      var key := Lower(alias.value);
      if key[0] == '/' then Outcome(aliases, LeadingSlash)
      else
        var table := OrNew(aliases);
        if key == "__proto__" then Outcome(Some(table.(proto := Some(Alias(text, passthrough)))), Created(key, text, passthrough))
        else Outcome(Some(table.(own := table.own[key := Alias(text, passthrough)])), Created(key, text, passthrough))
  }

  /** `removeAlias`: a missing or empty alias is a usage error; a
      lower-cased alias that reads truthy is deleted and reported removed,
      though `delete` only removes an own entry, so an inherited name is
      reported removed while nothing changes; any other is reported
      missing. Without a table in the configuration, nothing is found,
      not even an inherited name. */
  function Remove(aliases: Option<Table>, alias: Option<string>): (r: Outcome)
    ensures r.reply.RemoveUsage? <==> alias.None? || alias.value == ""
    ensures !r.reply.RemoveUsage? ==>
              var key := Lower(alias.value);
              && (r.reply == Removed(key) <==> aliases.Some? && Found(aliases.value, key))
              && (r.reply == NotFound(key) <==> aliases.None? || !Found(aliases.value, key))
    ensures !r.reply.RemoveUsage? && aliases.Some? ==>
              var key := Lower(alias.value);
              var table := aliases.value;
              && r.aliases.Some?
              && r.aliases.value.own.Keys == table.own.Keys - {key}
              && r.aliases.value.proto == table.proto
              && forall k :: k in r.aliases.value.own ==> r.aliases.value.own[k] == table.own[k]
    ensures r.reply.RemoveUsage? || r.reply.NotFound? ==> r.aliases == aliases
  {
    if alias.None? || alias.value == "" then Outcome(aliases, RemoveUsage)
    else
      var key := Lower(alias.value);
      if aliases.Some? && Found(aliases.value, key) then
        Outcome(Some(aliases.value.(own := aliases.value.own - {key})), Removed(key))
      else Outcome(aliases, NotFound(key))
  }

  // ---------------------------------------------------------------------
  // Laws

  /** Adding an alias and removing it again, in any spelling that differs
      only in case, leaves the table as it was without that alias. The
      alias `__proto__` is the exception: see `ProtoAliasSticks`. */
  lemma AddThenRemove(aliases: Option<Table>, alias: string, other: string, command: Command, passthrough: bool)
    requires alias != "" && Resolve(command) != "" && Lower(alias)[0] != '/'
    requires Lower(other) == Lower(alias) && Lower(alias) != "__proto__"
    ensures var added := Add(aliases, Some(alias), command, passthrough);
            var removed := Remove(added.aliases, Some(other));
            && removed.reply == Removed(Lower(alias))
            && removed.aliases == Some(OrNew(aliases).(own := OrNew(aliases).own - {Lower(alias)}))
  {
    var key := Lower(alias);
    var t := OrNew(aliases);
    var added := Add(aliases, Some(alias), command, passthrough);
    assert added.aliases == Some(t.(own := t.own[key := Alias(Resolve(command), passthrough)]));
    assert other != "" by { assert |other| == |Lower(other)| == |alias|; }
    assert Found(added.aliases.value, key);
    assert added.aliases.value.own - {key} == t.own - {key};
  }

  /** An alias named `__proto__` replaces the table's prototype: removing
      it is reported as done but the prototype stays, and the names
      `command` and, with passthrough, `passthrough` now read as aliases
      that can be "removed" without an entry. */
  lemma ProtoAliasSticks(aliases: Option<Table>, command: Command, passthrough: bool)
    requires Resolve(command) != "" && "__proto__" !in OrNew(aliases).own && "command" !in OrNew(aliases).own
    ensures var added := Add(aliases, Some("__proto__"), command, passthrough);
            var removed := Remove(added.aliases, Some("__proto__"));
            && added.aliases.Some?
            && added.aliases.value.own == OrNew(aliases).own
            && added.aliases.value.proto == Some(Alias(Resolve(command), passthrough))
            && removed.reply == Removed("__proto__") && removed.aliases == added.aliases
            && Remove(added.aliases, Some("command")) == Outcome(added.aliases, Removed("command"))
  {
    assert Lower("__proto__") == "__proto__";
    assert Lower("command") == "command";
    var t := OrNew(aliases);
    var added := Add(aliases, Some("__proto__"), command, passthrough);
    assert added.aliases == Some(t.(proto := Some(Alias(Resolve(command), passthrough))));
    assert Found(added.aliases.value, "__proto__");
    assert added.aliases.value.own - {"__proto__"} == added.aliases.value.own;
    assert added.aliases.value.own - {"command"} == added.aliases.value.own;
  }

  /** Removing `constructor` without such an own entry finds the function
      every object inherits: it is reported removed and nothing changes.
      Before the configuration has any table, the same removal finds
      nothing. */
  lemma InheritedNameRemoved(table: Table, alias: string)
    requires Lower(alias) == "constructor" && "constructor" !in table.own
    ensures Remove(Some(table), Some(alias)) == Outcome(Some(table), Removed("constructor"))
    ensures Remove(None, Some(alias)) == Outcome(None, NotFound("constructor"))
  {
    assert alias != "" by { assert |alias| == |Lower(alias)|; }
    assert table.own - {"constructor"} == table.own;
  }

  /** Adding the same alias twice keeps the second command only. */
  lemma AddOverwrites(aliases: Option<Table>, alias: string, c1: Command, p1: bool, c2: Command, p2: bool)
    requires alias != "" && Resolve(c1) != "" && Resolve(c2) != ""
    ensures var once := Add(aliases, Some(alias), c2, p2);
            var twice := Add(Add(aliases, Some(alias), c1, p1).aliases, Some(alias), c2, p2);
            once.aliases == twice.aliases
  {
    var key := Lower(alias);
    var t := OrNew(aliases);
    if key[0] != '/' {
      var first := Add(aliases, Some(alias), c1, p1);
      assert OrNew(first.aliases) == first.aliases.value;
      if key == "__proto__" {
        assert first.aliases.value == t.(proto := Some(Alias(Resolve(c1), p1)));
      } else {
        assert first.aliases.value == t.(own := t.own[key := Alias(Resolve(c1), p1)]);
        assert t.own[key := Alias(Resolve(c1), p1)][key := Alias(Resolve(c2), p2)] == t.own[key := Alias(Resolve(c2), p2)];
      }
    }
  }
}
