/** The message objects of the client library: setters, lookups and serialization. */
module Messages {
  import opened Strings
  import opened Ordered
  import opened Wire

  class Message {
    var command: string
    var handle: string
    var args: Args
    var flags: Flags
    var raw: string
    var serialized: string

    constructor ()
      ensures Snapshot() == EMPTY_CONTENT && raw == "" && serialized == ""
    {
      command, handle, args, flags, raw, serialized := "", "", [], [], "", "";
    }

    function Snapshot(): Content
      reads this
    {
      Wire.Content(command, handle, args, flags)
    }

    /** An absent key reads as the empty string. */
    function GetArg(key: string): (v: string)
      reads this
      ensures v == if key in ToMap(args) then ToMap(args)[key] else ""
    {
      FindIsLookup(args, key);
      Find(args, key)
    }

    method SetCommand(v: string)
      modifies this`command
      ensures command == v
    {
      command := v;
    }

    method SetHandle(v: string)
      modifies this`handle
      ensures handle == v
    {
      handle := v;
    }

    method SetRaw(v: string)
      modifies this`raw
      ensures raw == v
    {
      raw := v;
    }

    method AddArg(key: string, value: string)
      modifies this`args
      ensures args == Put(old(args), key, value)
      ensures SortedKeys(old(args)) ==> SortedKeys(args) && ToMap(args) == ToMap(old(args))[key := value]
    {
      if SortedKeys(args) {
        PutSorted(args, key, value);
      }
      args := Put(args, key, value);
    }

    method AddFlag(flag: string)
      modifies this`flags
      ensures flags == Insert(old(flags), flag)
      ensures Sorted(old(flags)) ==> Sorted(flags) && Elements(flags) == Elements(old(flags)) + {flag}
    {
      if Sorted(flags) {
        InsertSorted(flags, flag);
      }
      flags := Insert(flags, flag);
    }

    method SerializeArg(s: string, k: string, v: string) returns (r: string)
      ensures r == s + ArgText(k, v)
    {
      if '\n' in v {
        r := s + (" " + k + "=<<\n" + v + "\n>>");
        assert " " + k + "=<<\n" + v + "\n>>" == " " + k + "=" + ("<<\n" + v + "\n>>");
      } else if '"' in v {
        r := s + (" " + k + "='" + v + "'");
        assert " " + k + "='" + v + "'" == " " + k + "=" + ("'" + v + "'");
      } else if ' ' in v || '\t' in v {
        r := s + (" " + k + "=\"" + v + "\"");
        assert " " + k + "=\"" + v + "\"" == " " + k + "=" + ("\"" + v + "\"");
      } else {
        r := s + (" " + k + "=" + v);
      }
    }

    method SerializeArgs(s: string) returns (r: string)
      ensures r == s + ArgsText(args)
    {
      r := s;
      for i := 0 to |args|
        invariant r + ArgsText(args[i..]) == s + ArgsText(args)
      {
        ghost var before := r;
        r := SerializeArg(r, args[i].0, args[i].1);
        assert args[i..][1..] == args[i + 1..];
        Assoc(before, ArgText(args[i].0, args[i].1), ArgsText(args[i + 1..]));
      }
      assert args[|args|..] == [] && r + "" == r;
    }

    method SerializeFlags(s: string) returns (r: string)
      ensures r == s + FlagsText(flags)
    {
      r := s;
      for i := 0 to |flags|
        invariant r + FlagsText(flags[i..]) == s + FlagsText(flags)
      {
        ghost var before := r;
        r := r + (" " + flags[i]);
        assert flags[i..][1..] == flags[i + 1..];
        Assoc(before, " " + flags[i], FlagsText(flags[i + 1..]));
      }
      assert flags[|flags|..] == [] && r + "" == r;
    }
  }

  class Request {
    const base: Message

    constructor ()
      ensures fresh(base) && base.Snapshot() == EMPTY_CONTENT
    {
      base := new Message();
    }

    ghost function Packet(): Packet
      reads base
    {
      RequestPacket(base.Snapshot())
    }

    method Serialize()
      modifies base`serialized
      ensures base.serialized == Wire.Serialized(Packet())
    {
      var s := base.command;
      if base.handle != "" {
        s := s + (" ~" + base.handle);
      } else {
        assert s + "" == s;
      }
      s := base.SerializeArgs(s);
      s := base.SerializeFlags(s);
      base.serialized := s + "\n";
    }
  }

  class Response {
    const base: Message

    constructor ()
      ensures fresh(base) && base.Snapshot() == EMPTY_CONTENT
    {
      base := new Message();
    }

    ghost function Packet(): Packet
      reads base
    {
      ResponsePacket(base.Snapshot())
    }

    method Serialize()
      modifies base`serialized
      ensures base.serialized == Wire.Serialized(Packet())
    {
      var s;
      if base.handle != "" {
        s := "~" + base.handle + ":" + base.command;
      } else {
        s := base.command;
      }
      s := s + " ok";
      ghost var head := s;
      for i := 0 to |base.flags|
        invariant base.Snapshot() == old(base.Snapshot())
        invariant s + FlagsText(Without(base.flags[i..], "ok")) == head + FlagsText(Without(base.flags, "ok"))
      {
        ghost var before, rest := s, Without(base.flags[i + 1..], "ok");
        var f := base.flags[i];
        if f != "ok" {
          s := s + (" " + f);
          assert ([f] + rest)[1..] == rest;
          assert s + FlagsText(rest) == before + FlagsText([f] + rest);
        } else {
          assert [] + rest == rest;
        }
        assert base.flags[i..][1..] == base.flags[i + 1..];
      }
      assert s + "" == s;
      s := base.SerializeArgs(s);
      base.serialized := s + "\n";
    }
  }

  class ResponseError {
    const base: Message
    var code: string
    var what: string

    constructor ()
      ensures fresh(base) && base.Snapshot() == EMPTY_CONTENT && code == "" && what == ""
    {
      base := new Message();
      code, what := "", "";
    }

    ghost function Packet(): Packet
      reads this, base
    {
      ErrorPacket(base.Snapshot(), code, what)
    }

    method SetCode(v: string)
      modifies this`code
      ensures code == v
    {
      code := v;
    }

    method SetWhat(v: string)
      modifies this`what
      ensures what == v
    {
      what := v;
    }

    method Serialize()
      modifies base`serialized
      ensures base.serialized == Wire.Serialized(Packet())
    {
      var s;
      if base.handle != "" {
        s := "~" + base.handle + ":" + base.command;
      } else {
        s := base.command;
      }
      s := s + " error";
      ghost var s0 := s;
      if code != "" {
        s := s + (" code=" + code);
      }
      assert s == s0 + Optional(code, " code=" + code);
      ghost var s1 := s;
      if what != "" {
        s := s + (" what=\"" + what + "\"");
      }
      assert s == s1 + Optional(what, " what=\"" + what + "\"");
      s := base.SerializeArgs(s);
      s := base.SerializeFlags(s);
      base.serialized := s + " node_error\n";
    }
  }

  class Witness {
    const base: Message
    var body: string

    constructor ()
      ensures fresh(base) && base.Snapshot() == EMPTY_CONTENT && body == ""
    {
      base := new Message();
      body := "";
    }

    ghost function Packet(): Packet
      reads this, base
    {
      WitnessPacket(base.Snapshot(), body)
    }

    method SetBody(v: string)
      modifies this`body
      ensures body == v
    {
      body := v;
    }

    method Serialize()
      modifies base`serialized
      ensures base.serialized == Wire.Serialized(Packet())
    {
      var s := "witness";
      if body != "" {
        s := s + (" body=\"" + body + "\"");
      }
      assert s == "witness" + Optional(body, " body=\"" + body + "\"");
      s := base.SerializeArgs(s);
      s := base.SerializeFlags(s);
      base.serialized := s + "\n";
    }
  }

  class Publish {
    const base: Message
    var topic: string

    constructor ()
      ensures fresh(base) && base.Snapshot() == EMPTY_CONTENT && topic == ""
    {
      base := new Message();
      topic := "";
    }

    ghost function Packet(): Packet
      reads this, base
    {
      PublishPacket(base.Snapshot(), topic)
    }

    method SetTopic(v: string)
      modifies this`topic
      ensures topic == v
    {
      topic := v;
    }

    method Serialize()
      modifies base`serialized
      ensures base.serialized == Wire.Serialized(Packet())
    {
      var s := "publish";
      if topic != "" {
        s := s + (" " + topic);
      }
      assert s == "publish" + Optional(topic, " " + topic);
      s := base.SerializeArgs(s);
      s := base.SerializeFlags(s);
      base.serialized := s + "\n";
    }
  }
}
