/** The required-channel gate (`check_join`) and the owner command that
    configures it (`/setchannels`). Both bot variants implement them the
    same way; they differ only in the prompt text and in logging. */
module JoinGate {
  import opened Text
  import opened Telegram

  /** The result of asking Telegram for the user's membership of one
      channel: a status, or a failed call (any exception). */
  datatype Lookup = Status(status: string) | LookupFailed

  const JoinedStatuses: seq<string> := ["member", "administrator", "creator"]

  /** The user counts as joined to `channel` (looked up by its stripped
      name). */
  predicate Passes(channel: string, lookup: string -> Lookup) {
    var l := lookup(Strip(channel));
    l.Status? && l.status in JoinedStatuses
  }

  /** Every configured channel passes. */
  predicate GateOpen(channels: seq<string>, lookup: string -> Lookup) {
    forall i | 0 <= i < |channels| :: Passes(channels[i], lookup)
  }

  /** The stripped names of the channels the user has not joined, in
      configuration order. */
  function NotJoined(channels: seq<string>, lookup: string -> Lookup): (r: seq<string>)
    ensures |r| <= |channels|
  {
    if |channels| == 0 then []
    else
      var last := channels[|channels| - 1];
      NotJoined(channels[..|channels| - 1], lookup) + (if Passes(last, lookup) then [] else [Strip(last)])
  }

  /** The list is empty exactly when every channel passes. */
  lemma NotJoinedEmptyIff(channels: seq<string>, lookup: string -> Lookup)
    ensures NotJoined(channels, lookup) == [] <==> forall i :: 0 <= i < |channels| ==> Passes(channels[i], lookup)
  {
    var r := NotJoined(channels, lookup);
    if r != [] {
      var i := NotJoinedSource(channels, lookup, r[0]);
    }
    if exists i :: 0 <= i < |channels| && !Passes(channels[i], lookup) {
      var i :| 0 <= i < |channels| && !Passes(channels[i], lookup);
      NotJoinedHas(channels, lookup, i);
    }
  }

  /** Filtering distributes over concatenation, so the list keeps the
      configuration order. */
  lemma {:induction false} NotJoinedConcat(a: seq<string>, b: seq<string>, lookup: string -> Lookup)
    ensures NotJoined(a + b, lookup) == NotJoined(a, lookup) + NotJoined(b, lookup)
  {
    if |b| == 0 {
      assert a + b == a;
    } else {
      var b' := b[..|b| - 1];
      NotJoinedConcat(a, b', lookup);
      assert (a + b)[..|a + b| - 1] == a + b';
      assert (a + b)[|a + b| - 1] == b[|b| - 1];
    }
  }

  /** A name is in the list exactly when it is the stripped form of a
      configured channel that does not pass. */
  lemma NotJoinedElements(channels: seq<string>, lookup: string -> Lookup, x: string)
    ensures x in NotJoined(channels, lookup) <==>
      exists i :: 0 <= i < |channels| && !Passes(channels[i], lookup) && x == Strip(channels[i])
  {
    if x in NotJoined(channels, lookup) {
      var i := NotJoinedSource(channels, lookup, x);
    }
    if exists i :: 0 <= i < |channels| && !Passes(channels[i], lookup) && x == Strip(channels[i]) {
      var i :| 0 <= i < |channels| && !Passes(channels[i], lookup) && x == Strip(channels[i]);
      NotJoinedHas(channels, lookup, i);
    }
  }

  /** Each listed name comes from a channel that does not pass. */
  lemma {:induction false} NotJoinedSource(channels: seq<string>, lookup: string -> Lookup, x: string) returns (i: nat)
    requires x in NotJoined(channels, lookup)
    ensures i < |channels| && !Passes(channels[i], lookup) && x == Strip(channels[i])
  {
    var n := |channels|;
    var init := channels[..n - 1];
    if x in NotJoined(init, lookup) {
      i := NotJoinedSource(init, lookup, x);
      assert init[i] == channels[i];
    } else {
      i := n - 1;
    }
  }

  /** Each channel that does not pass is listed. */
  lemma {:induction false} NotJoinedHas(channels: seq<string>, lookup: string -> Lookup, i: nat)
    requires i < |channels| && !Passes(channels[i], lookup)
    ensures Strip(channels[i]) in NotJoined(channels, lookup)
  {
    var n := |channels|;
    if i < n - 1 {
      var init := channels[..n - 1];
      assert init[i] == channels[i];
      NotJoinedHas(init, lookup, i);
    }
  }

  /** One "Join" button per missing channel, linking to `https://t.me/`
      followed by the name with its leading `@`s removed. */
  function JoinButtons(names: seq<string>): (r: seq<Button>)
    ensures |r| == |names|
    ensures forall i :: 0 <= i < |r| ==>
      && r[i].text == "Join " + names[i]
      && "https://t.me/" <= r[i].url
      && var handle := r[i].url[|"https://t.me/"|..];
         && |handle| <= |names[i]|
         && handle == names[i][|names[i]| - |handle|..]
         && (forall j :: 0 <= j < |names[i]| - |handle| ==> names[i][j] == '@')
         && (handle == [] || handle[0] != '@')
  {
    seq(|names|, i requires 0 <= i < |names| => Button("Join " + names[i], "https://t.me/" + DropLeading(names[i], '@')))
  }

  /** Asking about one more channel appends its name when it does not
      pass. */
  lemma NotJoinedExtend(channels: seq<string>, lookup: string -> Lookup, i: nat)
    requires i < |channels|
    ensures NotJoined(channels[..i + 1], lookup) ==
      NotJoined(channels[..i], lookup) + (if Passes(channels[i], lookup) then [] else [Strip(channels[i])])
  {
    assert channels[..i + 1][..i] == channels[..i];
  }

  /** `check_join`: ask about every configured channel in order; grant
      access when none is missing, otherwise prompt with `promptText` and
      one button per missing channel. */
  method CheckJoin(channels: seq<string>, lookup: string -> Lookup, promptText: string)
    returns (allowed: bool, prompt: Option<Reply>)
    ensures allowed <==> GateOpen(channels, lookup)
    ensures allowed <==> prompt.None?
    ensures !allowed ==> prompt == Some(Prompt(promptText, JoinButtons(NotJoined(channels, lookup))))
  {
    var notJoined: seq<string> := [];
    var i := 0;
    while i < |channels|
      invariant 0 <= i <= |channels|
      invariant notJoined == NotJoined(channels[..i], lookup)
    {
      var name := Strip(channels[i]);
      match lookup(name) {
        case Status(s) =>
          if s !in JoinedStatuses {
            notJoined := notJoined + [name];
          }
        case LookupFailed =>
          notJoined := notJoined + [name];
      }
      NotJoinedExtend(channels, lookup, i);
      i := i + 1;
    }
    assert channels[..|channels|] == channels;
    NotJoinedEmptyIff(channels, lookup);
    if notJoined != [] {
      allowed, prompt := false, Some(Prompt(promptText, JoinButtons(notJoined)));
    } else {
      allowed, prompt := true, None;
    }
  }

  /** What `/setchannels` does. */
  datatype SetChannelsOutcome = Ignored | Usage(text: string) | Updated(channels: seq<string>)

  /** `/setchannels`: only the owner may use it; without an argument it
      answers with a usage line; otherwise the first argument, split on
      commas and not stripped, becomes the channel list. */
  function SetChannels(userId: int, ownerId: int, args: seq<string>): (r: SetChannelsOutcome)
    ensures userId != ownerId <==> r.Ignored?
    ensures r.Usage? <==> userId == ownerId && args == []
    ensures r.Updated? ==> JoinWith(r.channels, ',') == args[0]
    ensures r.Updated? ==> |r.channels| == Count(args[0], ',') + 1
    ensures r.Updated? ==> forall k :: 0 <= k < |r.channels| ==> ',' !in r.channels[k]
  {
    if userId != ownerId then Ignored
    else if args == [] then Usage("Usage: /setchannels @ch1,@ch2")
    else
      SplitThenJoin(args[0], ',');
      SplitCount(args[0], ',');
      Updated(Split(args[0], ','))
  }

  /** A channel list set by `/setchannels` from a whitespace-free argument
      (command arguments are whitespace-separated) is checked under the
      very names it holds: every missing name is one of its fields. */
  lemma SetChannelsThenGate(arg: string, lookup: string -> Lookup)
    requires forall i :: 0 <= i < |arg| ==> !IsSpace(arg[i])
    ensures forall x :: x in NotJoined(Split(arg, ','), lookup) ==> x in Split(arg, ',') && ',' !in x
  {
    var parts := Split(arg, ',');
    SplitThenJoin(arg, ',');
    assert JoinWith(parts, ',') == arg;
    forall x | x in NotJoined(parts, lookup)
      ensures x in parts && ',' !in x
    {
      NotJoinedElements(parts, lookup, x);
      var k :| 0 <= k < |parts| && !Passes(parts[k], lookup) && x == Strip(parts[k]);
      FieldsHaveNoSpace(parts, ',', k);
      StripClean(parts[k]);
    }
  }

  /** Each field of a joined string is a slice of it, so a join without
      whitespace has fields without whitespace. */
  lemma {:induction false} FieldsHaveNoSpace(parts: seq<string>, sep: char, k: nat)
    requires k < |parts|
    requires forall i :: 0 <= i < |JoinWith(parts, sep)| ==> !IsSpace(JoinWith(parts, sep)[i])
    ensures forall i :: 0 <= i < |parts[k]| ==> !IsSpace(parts[k][i])
  {
    var n := |parts|;
    if n > 1 {
      var init := parts[..n - 1];
      var j := JoinWith(init, sep);
      var s := JoinWith(parts, sep);
      assert s == j + [sep] + parts[n - 1];
      if k < n - 1 {
        forall i | 0 <= i < |j|
          ensures !IsSpace(j[i])
        {
          assert j[i] == s[i];
        }
        FieldsHaveNoSpace(init, sep, k);
        assert init[k] == parts[k];
      } else {
        forall i | 0 <= i < |parts[k]|
          ensures !IsSpace(parts[k][i])
        {
          assert parts[k][i] == s[|j| + 1 + i];
        }
      }
    } else {
      assert JoinWith(parts, sep) == parts[k];
    }
  }
}
