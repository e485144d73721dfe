/** The command topics of the MQTT bridge: base/name/set. */
module Topic {
  import opened Common
  import opened Strings

  /** setName: the device name in a command topic. */
  function SetName(base: string, topic: string): Option<string> {
    var prefix := TrimSuffix(base, "/") + "/";
    if !HasPrefix(topic, prefix) || !HasSuffix(topic, "/set") then None
    else
      var rest := TrimPrefix(topic, prefix);
      if !HasSuffix(rest, "/set") then None
      else
        var mid := TrimSuffix(rest, "/set");
        if mid == "" || '/' in mid then None else Some(mid)
  }

  /** The name publishDevice uses: the device's own, or its address if it has none. */
  function Shown(name: string, ieee: string): string { if name == "" then ieee else name }

  function DeviceTopic(base: string, name: string, ieee: string): string { base + "/" + Shown(name, ieee) }

  predicate PlainName(name: string) { name != "" && '/' !in name }

  /**
   For every base and topic: a name is found exactly when the topic is the base, without one trailing
   slash, then a slash, the name and "/set", and the name is not empty and has no slash.
   */
  lemma SetNameExact(base: string, topic: string, name: string)
    ensures SetName(base, topic) == Some(name) <==>
            topic == TrimSuffix(base, "/") + "/" + name + "/set" && PlainName(name)
  {
    if topic == TrimSuffix(base, "/") + "/" + name + "/set" && PlainName(name) { NameFound(base, name); }
    if SetName(base, topic) == Some(name) { FoundName(base, topic, name); }
  }

  lemma NameFound(base: string, name: string)
    requires PlainName(name)
    ensures SetName(base, TrimSuffix(base, "/") + "/" + name + "/set") == Some(name)
  {
    var prefix, end := TrimSuffix(base, "/") + "/", "/set";
    var topic := prefix + name + end;
    assert topic == prefix + (name + end);
    assert topic[|topic| - 4..] == end && (name + end)[|name|..] == end && (name + end)[..|name|] == name;
    assert TrimPrefix(topic, prefix) == name + end;
  }

  lemma FoundName(base: string, topic: string, name: string)
    requires SetName(base, topic) == Some(name)
    ensures topic == TrimSuffix(base, "/") + "/" + name + "/set" && PlainName(name)
  {
    var prefix := TrimSuffix(base, "/") + "/";
    var rest := TrimPrefix(topic, prefix);
    assert topic == prefix + rest;
    assert rest == name + rest[|rest| - 4..];
  }

  /** Two command topics understood as the same name are the same topic. */
  lemma SetNameInjective(base: string, topic: string, topic': string)
    requires SetName(base, topic).Some? && SetName(base, topic) == SetName(base, topic')
    ensures topic == topic'
  {
    SetNameExact(base, topic, SetName(base, topic).value);
    SetNameExact(base, topic', SetName(base, topic).value);
  }

  /**
   Sending to the topic a device is published under, plus "/set", reaches that name exactly when the
   name is plain and the configured base has no trailing slash: publishDevice keeps the slash that
   setName trims.
   */
  lemma PublishedTopicRoundTrip(base: string, name: string, ieee: string)
    ensures SetName(base, DeviceTopic(base, name, ieee) + "/set") == Some(Shown(name, ieee)) <==>
            PlainName(Shown(name, ieee)) && !HasSuffix(base, "/")
  {
    var n := Shown(name, ieee);
    var topic := base + "/" + n + "/set";
    SetNameExact(base, topic, n);
    if HasSuffix(base, "/") {
      var trimmed := TrimSuffix(base, "/");
      assert |topic| == |trimmed + "/" + n + "/set"| + 1;
    }
  }

  /** With a trailing slash on the base, no published topic is ever understood as a command topic. */
  lemma TrailingSlashIsDeaf(base: string, name: string, ieee: string)
    requires HasSuffix(base, "/")
    ensures SetName(base, DeviceTopic(base, name, ieee) + "/set") == None
  {
    var name := Shown(name, ieee);
    var topic := base + "/" + name + "/set";
    var prefix := TrimSuffix(base, "/") + "/";
    assert prefix == base;
    var rest := "/" + name + "/set";
    assert topic == prefix + rest;
    assert TrimPrefix(topic, prefix) == rest;
    assert HasSuffix(rest, "/set") && TrimSuffix(rest, "/set") == "/" + name;
  }

  /** The overlap of the slash before "set" with the slash after the base is not a name. */
  lemma BaseSetIsNoName(base: string)
    ensures SetName(base, TrimSuffix(base, "/") + "/set") == None
  {
    var topic := TrimSuffix(base, "/") + "/set";
    assert topic == (TrimSuffix(base, "/") + "/") + "set";
    assert TrimPrefix(topic, TrimSuffix(base, "/") + "/") == "set";
  }
}
