/** The command palette: registration by name, and search by subsequence. */
module CommandRegistry {
  import opened Ordering

  datatype Command = Command(name: string, summary: string)

  datatype Registration = Accepted | BadName | Duplicate

  predicate NameChar(c: char) { 'a' <= c <= 'z' || '0' <= c <= '9' || c == '-' }

  predicate ValidName(name: string) { name != "" && forall i :: 0 <= i < |name| ==> NameChar(name[i]) }

  /** Something, in lower-case letters, digits and hyphens. */
  lemma NamesAre(name: string)
    ensures ValidName(name) <==> name != "" && forall c :: c in name ==> 'a' <= c <= 'z' || '0' <= c <= '9' || c == '-'
  {
    assert forall i :: 0 <= i < |name| ==> name[i] in name;
  }

  // ----- subsequences -----

  /** `at` picks the characters of `needle` out of `haystack`, in order. */
  ghost predicate EmbedsAt(needle: string, haystack: string, at: seq<nat>) {
    && |at| == |needle|
    && (forall k :: 0 <= k < |at| ==> at[k] < |haystack| && haystack[at[k]] == needle[k])
    && (forall j, k :: 0 <= j < k < |at| ==> at[j] < at[k])
  }

  ghost predicate Embeds(needle: string, haystack: string) {
    exists at: seq<nat> :: EmbedsAt(needle, haystack, at)
  }

  lemma NothingEmbeds(haystack: string)
    ensures Embeds("", haystack)
  {
    assert EmbedsAt("", haystack, []);
  }

  /** One more character of the haystack extends the longest prefix of the needle found so far, when it is the one wanted. */
  lemma OneMoreCharacter(needle: string, haystack: string, m: nat, i: nat)
    requires m < |needle| && i < |haystack|
    requires Embeds(needle[..m], haystack[..i]) && !Embeds(needle[..m + 1], haystack[..i])
    ensures if haystack[i] == needle[m]
            then Embeds(needle[..m + 1], haystack[..i + 1]) && (m + 1 < |needle| ==> !Embeds(needle[..m + 2], haystack[..i + 1]))
            else Embeds(needle[..m], haystack[..i + 1]) && !Embeds(needle[..m + 1], haystack[..i + 1])
  {
    var (longer, longest) := (needle[..m + 1], if m + 1 < |needle| then needle[..m + 2] else needle);
    Extended(needle[..m], haystack, i);
    if haystack[i] != needle[m] {
      LastElsewhere(longer, haystack, i);
    }
    assert longest[..|longest| - 1] == if m + 1 < |needle| then longer else needle[..m];
    LastDropped(longest, haystack, i);
    assert needle[..m] + [needle[m]] == longer;
  }

  lemma Extended(needle: string, haystack: string, i: nat)
    requires i < |haystack| && Embeds(needle, haystack[..i])
    ensures Embeds(needle, haystack[..i + 1]) && Embeds(needle + [haystack[i]], haystack[..i + 1])
  {
    var at: seq<nat> :| EmbedsAt(needle, haystack[..i], at);
    assert EmbedsAt(needle, haystack[..i + 1], at);
    assert EmbedsAt(needle + [haystack[i]], haystack[..i + 1], at + [i]);
  }

  /** Dropping the last character frees the last position. */
  lemma LastDropped(needle: string, haystack: string, i: nat)
    requires needle != "" && i < |haystack|
    ensures Embeds(needle, haystack[..i + 1]) ==> Embeds(needle[..|needle| - 1], haystack[..i])
  {
    var longer := haystack[..i + 1];
    if at: seq<nat> :| EmbedsAt(needle, longer, at) {
      var last := |at| - 1;
      assert at[last] <= i;
      assert EmbedsAt(needle[..last], haystack[..i], at[..last]);
    }
  }

  /** A last position that does not match is not used. */
  lemma LastElsewhere(needle: string, haystack: string, i: nat)
    requires needle != "" && i < |haystack| && haystack[i] != needle[|needle| - 1]
    ensures Embeds(needle, haystack[..i + 1]) ==> Embeds(needle, haystack[..i])
  {
    var longer := haystack[..i + 1];
    if at: seq<nat> :| EmbedsAt(needle, longer, at) {
      var last := |at| - 1;
      assert haystack[..i + 1][at[last]] == needle[last];
      assert EmbedsAt(needle, haystack[..i], at);
    }
  }

  lemma EmbedsInPrefix(needle: string, haystack: string, i: nat)
    requires i <= |haystack| && Embeds(needle, haystack[..i])
    ensures Embeds(needle, haystack)
  {
    var at: seq<nat> :| EmbedsAt(needle, haystack[..i], at);
    assert EmbedsAt(needle, haystack, at);
  }

  /** The greedy scan finds an embedding whenever there is one. */
  method Subsequence(needle: string, haystack: string) returns (found: bool)
    ensures found <==> Embeds(needle, haystack)
  {
    hide Embeds;
    NothingEmbeds(haystack);
    if needle == "" {
      return true;
    }
    var wanted := 0;
    NothingEmbeds(haystack[..0]);
    NotInNothing(needle[..1]);
    assert haystack[..0] == "" && needle[..0] == "";
    for i := 0 to |haystack|
      invariant wanted < |needle|
      invariant Embeds(needle[..wanted], haystack[..i]) && !Embeds(needle[..wanted + 1], haystack[..i])
    {
      OneMoreCharacter(needle, haystack, wanted, i);
      if haystack[i] == needle[wanted] {
        if wanted + 1 == |needle| {
          assert needle[..wanted + 1] == needle;
          EmbedsInPrefix(needle, haystack, i + 1);
          return true;
        }
        wanted := wanted + 1;
      }
    }
    assert haystack[..|haystack|] == haystack;
    WholeNeedsPrefix(needle, haystack, wanted + 1);
    return false;
  }

  lemma NotInNothing(needle: string)
    requires needle != ""
    ensures !Embeds(needle, "")
  {
    if at: seq<nat> :| EmbedsAt(needle, "", at) {
      HasRoom(needle, "", at);
    }
  }

  lemma HasRoom(needle: string, haystack: string, at: seq<nat>)
    requires needle != "" && EmbedsAt(needle, haystack, at)
    ensures haystack != ""
  {
    assert at[0] < |haystack|;
  }

  lemma WholeNeedsPrefix(needle: string, haystack: string, n: nat)
    requires n <= |needle| && !Embeds(needle[..n], haystack)
    ensures !Embeds(needle, haystack)
  {
    if at: seq<nat> :| EmbedsAt(needle, haystack, at) {
      PrefixEmbeds(needle, haystack, n, at);
    }
  }

  lemma PrefixEmbeds(needle: string, haystack: string, n: nat, at: seq<nat>)
    requires n <= |needle| && EmbedsAt(needle, haystack, at)
    ensures Embeds(needle[..n], haystack)
  {
    assert EmbedsAt(needle[..n], haystack, at[..n]);
  }

  // ----- the registry -----

  /** The commands among `names` that match, in order of name. */
  ghost predicate Listed(found: seq<Command>, commands: map<string, Command>, names: seq<string>, matching: iset<string>) {
    && (forall c :: c in found <==> c.name in names && c.name in commands && commands[c.name] == c && c.name in matching)
    && (forall i, j :: 0 <= i < j < |found| ==> STRING_LESS(found[i].name, found[j].name))
  }

  lemma NothingListed(commands: map<string, Command>, names: seq<string>)
    ensures forall matching: iset<string> :: Listed([], commands, names[..0], matching)
  {
  }

  lemma ListNext(found: seq<Command>, commands: map<string, Command>, names: seq<string>, i: nat, matching: iset<string>)
    requires i < |names| && Ascending(STRING_LESS, names) && names[i] in commands && commands[names[i]].name == names[i]
    requires Listed(found, commands, names[..i], matching)
    ensures Listed(if names[i] in matching then found + [commands[names[i]]] else found, commands, names[..i + 1], matching)
  {
    hide STRING_LESS;
    assert names[..i + 1] == names[..i] + [names[i]];
    forall a | 0 <= a < |found| ensures STRING_LESS(found[a].name, names[i]) {
      assert found[a] in found;
    }
  }

  lemma AllListed(found: seq<Command>, commands: map<string, Command>, names: seq<string>, matching: iset<string>)
    requires Listed(found, commands, names, matching) && forall name :: name in names <==> name in commands
    ensures forall c :: c in found <==> c.name in commands && commands[c.name] == c && c.name in matching
    ensures forall i, j :: 0 <= i < j < |found| ==> STRING_LESS(found[i].name, found[j].name)
  {
  }

  class Registry {
    var commands: map<string, Command>
    const lower: string -> string

    /** Every command is filed under its own name, and every name can be typed. */
    ghost predicate Valid()
      reads this
    {
      forall name :: name in commands ==> commands[name].name == name && ValidName(name)
    }

    constructor (lower: string -> string)
      ensures Valid() && commands == map[] && this.lower == lower
    {
      commands, this.lower := map[], lower;
    }

    method Register(command: Command) returns (r: Registration)
      requires Valid()
      modifies this
      ensures Valid()
      ensures r.BadName? <==> command.name == "" || exists c :: c in command.name && !('a' <= c <= 'z' || '0' <= c <= '9' || c == '-')
      ensures r.Duplicate? <==> !r.BadName? && command.name in old(commands)
      ensures commands == if r.Accepted? then old(commands)[command.name := command] else old(commands)
    {
      NamesAre(command.name);
      if !ValidName(command.name) {
        return BadName;
      }
      if command.name in commands {
        return Duplicate;
      }
      commands := commands[command.name := command];
      return Accepted;
    }

    ghost predicate Matches(name: string, query: string)
      reads this
    {
      query == "" || Embeds(lower(query), name)
    }

    /** Exactly the commands whose name holds the query's characters in order, by name. */
    method Search(query: string) returns (found: seq<Command>)
      requires Valid()
      ensures forall c :: c in found <==> c.name in commands && commands[c.name] == c && Matches(c.name, query)
      ensures forall i, j :: 0 <= i < j < |found| ==> STRING_LESS(found[i].name, found[j].name)
    {
      hide Embeds, STRING_LESS, ValidName, Listed;
      StringOrder();
      var names := Sorted(STRING_LESS, commands.Keys);
      var needle := lower(query);
      found := [];
      NothingListed(commands, names);
      ghost var matches := iset name | Matches(name, query);
      for i := 0 to |names|
        invariant Listed(found, commands, names[..i], matches)
      {
        var name := names[i];
        assert name in names;
        var matching := query == "";
        if !matching {
          matching := Subsequence(needle, name);
        }
        ListNext(found, commands, names, i, matches);
        if matching {
          found := found + [commands[name]];
        }
      }
      assert names[..|names|] == names;
      AllListed(found, commands, names, matches);
    }
  }
}
