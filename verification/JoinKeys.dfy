/** One correlation key from several parts, each written as its length, a colon and its
    bytes. A char stands for one byte. */
module JoinKeys {
  import opened Common
  import opened Decimal

  function Encode(part: string): string {
    Itoa(|part|) + ":" + part
  }

  function Joined(parts: seq<string>): string {
    if parts == [] then "" else Encode(parts[0]) + Joined(parts[1..])
  }

  method JoinKeys(parts: seq<string>) returns (key: string)
    ensures key == Joined(parts)
  {
    key := "";
    for i := 0 to |parts|
      invariant key + Joined(parts[i..]) == Joined(parts)
    {
      key := key + Itoa(|parts[i]|);
      key := key + ":";
      key := key + parts[i];
      assert parts[i..][1..] == parts[i + 1..];
    }
  }

  /** Reads a joined key back, and fails on anything that is not one. */
  function Parts(key: string): Option<seq<string>>
    decreases |key|
  {
    if key == "" then Some([])
    else
      var c := IndexOf(key, ':');
      if c == |key| || !AllDigits(key[..c]) then None
      else
        var n := Value(key[..c]);
        if c + 1 + n > |key| then None
        else match Parts(key[c + 1 + n..])
          case None => None
          case Some(rest) => Some([key[c + 1..c + 1 + n]] + rest)
  }

  lemma ReadsFirst(part: string, rest: string)
    ensures var key := Encode(part) + rest;
            var c := IndexOf(key, ':');
            && c < |key| && key[..c] == Itoa(|part|)
            && c + 1 + |part| <= |key| && key[c + 1..c + 1 + |part|] == part && key[c + 1 + |part|..] == rest
  {
    var len := Itoa(|part|);
    var key := Encode(part) + rest;
    assert key == len + (":" + (part + rest));
    assert key[|len|] == ':' && forall j :: 0 <= j < |len| ==> key[j] == len[j];
    assert IndexOf(key, ':') == |len|;
  }

  /** The decoder undoes the join, for parts with any bytes in them. */
  lemma {:induction false} PartsOfJoined(parts: seq<string>)
    ensures Parts(Joined(parts)) == Some(parts)
  {
    if parts != [] {
      var part, rest := parts[0], Joined(parts[1..]);
      ReadsFirst(part, rest);
      ValueItoa(|part|);
      PartsOfJoined(parts[1..]);
      assert parts == [part] + parts[1..];
    }
  }

  /** Two sequences of parts with the same key are the same sequence. */
  lemma JoinIsInjective(a: seq<string>, b: seq<string>)
    requires Joined(a) == Joined(b)
    ensures a == b
  {
    PartsOfJoined(a);
    PartsOfJoined(b);
  }
}
