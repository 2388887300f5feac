/** What each attempt hands to the encoder: the source file, the fixed list
    of output options and the publishing destination. The encoder process
    itself is not part of this model. */
module Encoder {
  import opened Strings

  /** H.264 at 3000 kbit/s with a 6000 kbit buffer, GOP 50, yuv420p, AAC at
      160 kbit/s and 44.1 kHz, FLV container: the same eleven options on
      every attempt. */
  const OutputOptions: seq<string> := [
    "-c:v libx264",
    "-preset veryfast",
    "-b:v 3000k",
    "-maxrate 3000k",
    "-bufsize 6000k",
    "-pix_fmt yuv420p",
    "-g 50",
    "-c:a aac",
    "-b:a 160k",
    "-ar 44100",
    "-f flv"
  ]

  /** The publishing endpoint: the server URL, a slash, the stream key. */
  function Destination(url: string, key: string): (d: string)
    ensures |d| == |url| + 1 + |key|
    ensures StartsWith(d, url) && d[|url|] == '/' && d[|url| + 1..] == key
  {
    url + "/" + key
  }

  /** One encoder run as configured for an attempt. */
  datatype Invocation = Invocation(input: string, options: seq<string>, output: string)

  function EncoderRun(source: string, url: string, key: string): (r: Invocation)
    ensures r.input == source && r.options == OutputOptions
    ensures r.output == Destination(url, key)
  {
    Invocation(source, OutputOptions, Destination(url, key))
  }

  /** The stream key is the last slash-separated segment of the destination,
      whatever slashes the URL holds. */
  lemma DestinationSegments(url: string, key: string)
    requires '/' !in key
    ensures Split(Destination(url, key), '/') == Split(url, '/') + [key]
  {
    SplitAround(url, key, '/');
    SplitJoin([key], '/');
  }

  /** Different URL/key pairs never publish to the same destination when
      the key holds no slash (a key taken from a space-separated command
      holds no space either, but may hold a slash). */
  lemma DestinationInjective(url1: string, key1: string, url2: string, key2: string)
    requires '/' !in key1 && '/' !in key2
    requires Destination(url1, key1) == Destination(url2, key2)
    ensures url1 == url2 && key1 == key2
  {
    DestinationSegments(url1, key1);
    DestinationSegments(url2, key2);
    var segs := Split(Destination(url1, key1), '/');
    assert key1 == segs[|segs| - 1] == key2;
    var d := Destination(url1, key1);
    assert url1 == d[..|url1|] && url2 == d[..|url2|];
  }
}
