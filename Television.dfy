/** The two television objects: a power flag and a channel. The
    prototype-based `TV` changes channel whatever the power; the
    class-based one only while it is on. */
module Television {
  import opened Wrappers

  /** The settings object given to the constructor; a missing property is
      `None`. */
  datatype Defaults = Defaults(channel: Option<int>, power: Option<bool>)

  /** The prototype-based television, which starts on. */
  class Tv {
    const name: string
    var channel: Option<int>
    var on: bool

    /** `new TV(defaults)`: named `TV`, on, tuned to the given channel. */
    constructor (defaults: Defaults)
      ensures name == "TV" && channel == defaults.channel && on
    {
      name := "TV";
      channel := defaults.channel;
      on := true;
    }

    /** `switchOnOff`: flips the power and keeps the channel. */
    method SwitchOnOff()
      modifies this
      ensures on == !old(on) && channel == old(channel)
    {
      on := !on;
    }

    /** `changeChannel`: tunes to the new channel, on or off, and keeps the
        power. */
    method ChangeChannel(newChannel: int)
      modifies this
      ensures channel == Some(newChannel) && on == old(on)
    {
      channel := Some(newChannel);
    }
  }

  /** JavaScript truthiness of the power flag: only `true` is truthy, and
      a missing flag is falsy. */
  predicate Truthy(on: Option<bool>)
  {
    on == Some(true)
  }

  /** The class-based television, whose power comes from the settings. */
  class GuardedTv {
    const name: string
    var channel: Option<int>
    var on: Option<bool>

    /** `new TV(defaults)`: named `TV`, tuned to the given channel, with
        the given power (missing if the settings have none). */
    constructor (defaults: Defaults)
      ensures name == "TV" && channel == defaults.channel && on == defaults.power
    {
      name := "TV";
      channel := defaults.channel;
      on := defaults.power;
    }

    /** `switchOnOff`: sets the power to the negation of its truthiness
        (a missing flag becomes `true`) and keeps the channel. */
    method SwitchOnOff()
      modifies this
      ensures on == Some(!Truthy(old(on))) && channel == old(channel)
      ensures Truthy(on) <==> !Truthy(old(on))
    {
      on := Some(!Truthy(on));
    }

    /** `changeChannel`: tunes to the new channel only while on; while off
        it changes nothing. */
    method ChangeChannel(newChannel: int)
      modifies this
      ensures Truthy(old(on)) ==> channel == Some(newChannel)
      ensures !Truthy(old(on)) ==> channel == old(channel)
      ensures on == old(on)
    {
      if Truthy(on) {
        channel := Some(newChannel);
      }
    }
  }

  /** Switching the prototype-based television twice restores it. */
  method SwitchTwice(tv: Tv)
    modifies tv
    ensures tv.on == old(tv.on) && tv.channel == old(tv.channel)
  {
    tv.SwitchOnOff();
    tv.SwitchOnOff();
  }

  /** Switching the class-based television twice restores its
      truthiness, and its power flag once it holds a boolean. */
  method SwitchGuardedTwice(tv: GuardedTv)
    modifies tv
    ensures Truthy(tv.on) == Truthy(old(tv.on)) && tv.channel == old(tv.channel)
    ensures old(tv.on) != None ==> tv.on == old(tv.on)
  {
    ghost var before := tv.on;
    tv.SwitchOnOff();
    tv.SwitchOnOff();
    if before != None {
      assert before == Some(before.value == true);
    }
  }

  /** The exported instance is built from `{channel: 3, on: false}`, whose
      `on` is not the `power` the constructor reads, so it starts on
      channel 3 with no power flag: a channel change is ignored until the
      power is switched, after which it takes effect. */
  method ExportedInstance() returns (start: Option<int>, ignored: Option<int>, tuned: Option<int>)
    ensures start == Some(3) && ignored == Some(3) && tuned == Some(5)
  {
    var tv := new GuardedTv(Defaults(Some(3), None));
    start := tv.channel;
    tv.ChangeChannel(5);
    ignored := tv.channel;
    tv.SwitchOnOff();
    tv.ChangeChannel(5);
    tuned := tv.channel;
  }
}
