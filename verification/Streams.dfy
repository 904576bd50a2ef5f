/** What decoding a byte stream gives, whatever the format of its items. */
module Streams {
  import opened Base

  /** The undecoded end of a stream: an item still incomplete, or one that is not well formed. */
  datatype End = Rest(bytes: seq<Byte>) | Malformed

  datatype Drained<+T> = Drained(items: seq<T>, end: End)

  function Push<T>(items: seq<T>, drained: Drained<T>): Drained<T> {
    Drained(items + drained.items, drained.end)
  }

  lemma PushNothing<T>(drained: Drained<T>)
    ensures Push([], drained) == drained
  {
    assert [] + drained.items == drained.items;
  }

  lemma PushPush<T>(one: seq<T>, two: seq<T>, drained: Drained<T>)
    ensures Push(one, Push(two, drained)) == Push(one + two, drained)
  {
    assert one + (two + drained.items) == (one + two) + drained.items;
  }
}
