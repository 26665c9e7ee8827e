/** What moving a slider or pressing a switch of a client does (ExecuteCommandOrState of src/EventManager.cpp with the
    default mapping): one command for the channel, with the value. */
module DefaultCommands {
  import opened Common
  import opened Doubles
  import opened Texts
  import opened EventManagers
  import opened RocketPhases

  /** The state a client writes for a channel. */
  function GuiState(channel: string): string {
    "gui:" + channel + ":sensor"
  }

  lemma GuiPrefix(channel: string)
    ensures Contains(GuiState(channel), "gui:")
    ensures ReplaceFirst(GuiState(channel), "gui:", "") == channel + ":sensor"
  {
    ReplacesFirst("", "gui:", channel + ":sensor", "");
    assert GuiState(channel) == "" + "gui:" + (channel + ":sensor");
    assert GuiState(channel)[0..4] == "gui:";
    assert OccursAt(GuiState(channel), "gui:", 0);
    assert "" + "" + (channel + ":sensor") == channel + ":sensor";
  }

  lemma NoEarlierSuffix(channel: string, i: nat)
    requires !Contains(channel, ":sensor") && i < |channel|
    ensures !OccursAt(channel + ":sensor", ":sensor", i)
  {
    var text := channel + ":sensor";
    if i + 7 <= |channel| {
      assert text[i..i + 7] == channel[i..i + 7];
      assert !OccursAt(channel, ":sensor", i);
    } else {
      var k := |channel| - i;
      assert text[|channel|] == ':' && ":sensor"[k] != ':';
      assert i + 7 <= |text| ==> text[i..i + 7][k] == ':';
    }
  }

  /** The channel is what stands between the two. */
  lemma ChannelOfGui(channel: string)
    requires !Contains(channel, ":sensor")
    ensures ReplaceFirst(ReplaceFirst(GuiState(channel), "gui:", ""), ":sensor", "") == channel
  {
    GuiPrefix(channel);
    forall i | 0 <= i < |channel| ensures !OccursAt(channel + ":sensor" + "", ":sensor", i) {
      NoEarlierSuffix(channel, i);
      assert channel + ":sensor" + "" == channel + ":sensor";
    }
    ReplacesFirst(channel, ":sensor", "", "");
    assert channel + ":sensor" + "" == channel + ":sensor" && channel + "" + "" == channel;
  }

  /** The default event of a type: its command, with the type as its parameter. */
  function DefaultEvent(typeName: string, suffix: string): Event {
    Command(typeName + suffix, [Named(typeName)])
  }

  lemma GuiBinding(cfg: Config, channel: string, typeName: string, suffix: string)
    requires !Contains(channel, ":sensor") && GuiState(channel) !in cfg.mapping
    requires channel in cfg.channelTypes && cfg.channelTypes[channel] == typeName
    requires typeName in cfg.defaults && cfg.defaults[typeName] == [DefaultEvent(typeName, suffix)]
    ensures Bind(cfg, GuiState(channel)) == Binding([DefaultEvent(typeName, suffix)], typeName, channel, true)
    ensures CommandName(Bind(cfg, GuiState(channel)), typeName + suffix) == channel + suffix
  {
    GuiPrefix(channel);
    ChannelOfGui(channel);
    ReplacesFirst("", typeName, suffix, channel);
    assert "" + typeName + suffix == typeName + suffix && "" + channel + suffix == channel + suffix;
  }

  /** Writing the state of a channel without events of its own issues the command of its type, under the name of the
      channel and with the value written, and does nothing else. */
  lemma DefaultIsIssued(cfg: Config, w: World, channel: string, typeName: string, suffix: string, value: Double,
                        timestamp: nat)
    requires Acyclic(cfg) && !Contains(channel, ":sensor") && GuiState(channel) !in cfg.mapping
    requires channel in cfg.channelTypes && cfg.channelTypes[channel] == typeName
    requires typeName in cfg.defaults && cfg.defaults[typeName] == [DefaultEvent(typeName, suffix)]
    requires channel + suffix in cfg.commands
    ensures SetState(cfg, w, GuiState(channel), value, timestamp).log
         == w.log + [Wrote(GuiState(channel), OldValue(w, GuiState(channel)), value), Fired(GuiState(channel), 0),
                     Commanded(channel + suffix, [value])]
  {
    var s := GuiState(channel);
    GuiBinding(cfg, channel, typeName, suffix);
    var b, e := Bind(cfg, s), DefaultEvent(typeName, suffix);
    var stored := Stored(w, s, value, timestamp);
    var fired := stored.(log := stored.log + [Fired(s, 0)]);
    OneArgument(fired, typeName, value);
    RunEventIssues(cfg, fired, s, value, 0);
    var o := RunEvent(cfg, fired, s, value, 0);
    assert o.world.log == fired.log + [Commanded(channel + suffix, [value])];
    assert RunEvents(cfg, o.world, s, OldValue(w, s), value, 1) == o.world;
  }

  lemma OneArgument(w: World, subject: string, value: Double)
    ensures Arguments(w, subject, [Named(subject)], 1, value) == Evaluated(w, Ok([value]))
  {
    assert Arguments(w, subject, [Named(subject)], 0, value) == Evaluated(w, Ok([]));
    assert [] + [value] == [value];
  }

  /** In the sample: a servo moves to the value, a digital output switches to it. */
  lemma SampleDefaults(channelTypes: map<string, string>, commands: set<string>,
                       throws: (string, seq<Double>) -> bool, clock: nat -> nat, w: World, channel: string,
                       value: Double, timestamp: nat)
    requires !Contains(channel, ":sensor") && channel in channelTypes
    ensures var cfg, s := SampleConfig(channelTypes, commands, throws, clock), GuiState(channel);
            && Acyclic(cfg)
            && (channelTypes[channel] == "Servo" && channel + ":SetTargetPosition" in commands ==>
                  SetState(cfg, w, s, value, timestamp).log ==
                  w.log + [Wrote(s, OldValue(w, s), value), Fired(s, 0),
                           Commanded(channel + ":SetTargetPosition", [value])])
            && (channelTypes[channel] == "DigitalOut" && channel + ":SetState" in commands ==>
                  SetState(cfg, w, s, value, timestamp).log ==
                  w.log + [Wrote(s, OldValue(w, s), value), Fired(s, 0), Commanded(channel + ":SetState", [value])])
  {
    var cfg := SampleConfig(channelTypes, commands, throws, clock);
    SampleConfigMeetsMapping(channelTypes, commands, throws, clock);
    GuiIsUnmapped(channel);
    SampleDefaultEvents();
    if channelTypes[channel] == "Servo" && channel + ":SetTargetPosition" in commands {
      DefaultIsIssued(cfg, w, channel, "Servo", ":SetTargetPosition", value, timestamp);
    }
    if channelTypes[channel] == "DigitalOut" && channel + ":SetState" in commands {
      DefaultIsIssued(cfg, w, channel, "DigitalOut", ":SetState", value, timestamp);
    }
  }

  lemma SampleDefaultEvents()
    ensures DEFAULTS["Servo"] == [DefaultEvent("Servo", ":SetTargetPosition")]
    ensures DEFAULTS["DigitalOut"] == [DefaultEvent("DigitalOut", ":SetState")]
  {
    assert "Servo" + ":SetTargetPosition" == "Servo:SetTargetPosition";
    assert "DigitalOut" + ":SetState" == "DigitalOut:SetState";
    assert "Servo"[0] != "DigitalOut"[0];
  }

  lemma GuiIsUnmapped(channel: string)
    ensures GuiState(channel) !in FLASH_COMMANDS + STATE_EVENTS
  {
    var s := GuiState(channel);
    assert s[0] == 'g' && s[1] == 'u' && s[|s| - 2] == 'o' && CLEAR[|CLEAR| - 2] == 'a';
    SourcesAreSpelled(s);
  }
}
