/**
 * The `-filter_complex` graph and the argument list that `spawn_ffmpeg_childprocess`
 * builds for the decoder. The graph samples the input at the configured rate,
 * splits it into one branch per trigger and crops each branch:
 *
 *   [0:v]fps=R,split=N[in0]...[in{N-1}];[in0]crop=...[out0];...;[in{N-1}]crop=...[out{N-1}]
 *
 * and the argument list maps the branches `[out0]` ... `[out{N-1}]` in trigger
 * order. The stdout demultiplexer relies on output port `i` belonging to trigger `i`.
 */
module FilterGraph {
  import opened Text
  import opened Config

  function InLabel(i: nat): string {
    "[in" + NatToString(i) + "]"
  }

  function OutLabel(i: nat): string {
    "[out" + NatToString(i) + "]"
  }

  /** `[in0][in1]...[in{n-1}]`: the branches that `split=n` fans out to. */
  function InLabels(n: nat): string {
    if n == 0 then "" else InLabels(n - 1) + InLabel(n - 1)
  }

  /** The sample-and-split stage. */
  function GraphHead(rate: string, n: nat): string {
    "[0:v]fps=" + rate + ",split=" + NatToString(n) + InLabels(n)
  }

  /**
   * The crop filter of one trigger: width, height, x, y, each a fraction of the
   * input size, x and width scaling with the input width, y and height with its height.
   */
  function CropFilter(c: Crop): string {
    "crop=round(in_w*" + c.widthFrac + "):round(in_h*" + c.heightFrac
    + "):round(in_w*" + c.xFrac + "):round(in_h*" + c.yFrac + ")"
  }

  /** The crop stage of trigger `i`: from split branch `i` to output port `i`. */
  function CropSegment(i: nat, c: Crop): string {
    InLabel(i) + CropFilter(c) + OutLabel(i)
  }

  /** One crop stage per trigger, in configuration order. */
  function CropSegments(triggers: seq<Trigger>): (r: seq<string>)
    ensures |r| == |triggers|
  {
    seq(|triggers|, i requires 0 <= i < |triggers| => CropSegment(i, triggers[i].crop))
  }

  /** The whole filter graph. */
  function Graph(rate: string, triggers: seq<Trigger>): string {
    GraphHead(rate, |triggers|) + ";" + Join(CropSegments(triggers), ';')
  }

  /** The argument pairs `-map [out0]` ... `-map [out{n-1}]`. */
  function MapArgs(n: nat): (r: seq<string>)
    ensures |r| == 2 * n
  {
    if n == 0 then [] else MapArgs(n - 1) + ["-map", OutLabel(n - 1)]
  }

  /** Raw RGB24 frames without timestamps and without audio, written to stdout. */
  const OutputFormatArgs: seq<string> :=
    ["-vsync", "drop", "-f", "rawvideo", "-pix_fmt", "rgb24", "-an", "-y", "pipe:1"]

  /** The decoder's argument list (the executable path is not part of it). */
  function CommandArgs(config: HypetriggerConfig): seq<string> {
    ["-hwaccel", "auto", "-i", config.inputPath,
     "-filter_complex", Graph(config.samplesPerSecond, config.triggers)]
    + MapArgs(|config.triggers|) + OutputFormatArgs
  }

  /** Builds the filter graph by appending to a growing string, as the source does. */
  method BuildFilterComplex(rate: string, triggers: seq<Trigger>) returns (fc: string)
    ensures fc == Graph(rate, triggers)
  {
    var n := |triggers|;
    var split := "[0:v]fps=" + rate + ",split=" + NatToString(n);
    fc := split;
    for i := 0 to n
      invariant fc == split + InLabels(i)
    {
      AppendAssoc(split, InLabels(i), InLabel(i));
      fc := fc + ("[in" + NatToString(i) + "]");
    }
    fc := fc + ";";
    ghost var stage := fc;
    ghost var segments := CropSegments(triggers);
    for i := 0 to n
      invariant fc == stage + (Join(segments[..i], ';') + (if 0 < i < n then ";" else ""))
    {
      var c := triggers[i].crop;
      var segment := ("[in" + NatToString(i) + "]")
        + ("crop=round(in_w*" + c.widthFrac + "):round(in_h*" + c.heightFrac
           + "):round(in_w*" + c.xFrac + "):round(in_h*" + c.yFrac + ")")
        + ("[out" + NatToString(i) + "]");
      assert segment == segments[i];
      CropLoopStep(stage, segments, i);
      fc := fc + segment;
      if i < n - 1 {
        fc := fc + ";";
      }
    }
    assert segments[..n] == segments;
  }

  /** One iteration of the crop loop: the next stage, then a separator unless it is the last. */
  lemma CropLoopStep(stage: string, segments: seq<string>, i: nat)
    requires i < |segments|
    ensures var n := |segments|;
            var done := stage + (Join(segments[..i], ';') + (if 0 < i < n then ";" else ""));
            var next := stage + (Join(segments[..i + 1], ';') + (if 0 < i + 1 < n then ";" else ""));
            (if i < n - 1 then done + segments[i] + ";" else done + segments[i]) == next
  {
    var n := |segments|;
    var done := Join(segments[..i], ';') + (if 0 < i < n then ";" else "");
    AppendAssoc(stage, done, segments[i]);
    JoinStep(segments, i, ';');
    if i < n - 1 {
      AppendAssoc(stage, done + segments[i], ";");
    }
  }

  lemma AppendAssoc(a: string, b: string, c: string)
    ensures (a + b) + c == a + (b + c)
  {
  }

  /** Appending the next stage after the separator that the previous iteration left. */
  lemma JoinStep(parts: seq<string>, i: nat, sep: char)
    requires i < |parts|
    ensures Join(parts[..i], sep) + (if 0 < i then [sep] else []) + parts[i] == Join(parts[..i + 1], sep)
  {
    var next := parts[..i + 1];
    assert next[..i] == parts[..i];
    if i == 0 {
      assert Join(parts[..0], sep) == [];
    }
  }

  /** Builds the argument list: inputs, the graph, one `-map` per trigger, the output format. */
  method BuildArgs(config: HypetriggerConfig) returns (args: seq<string>)
    ensures args == CommandArgs(config)
  {
    var fc := BuildFilterComplex(config.samplesPerSecond, config.triggers);
    var head := ["-hwaccel", "auto", "-i", config.inputPath, "-filter_complex", fc];
    args := head;
    for i := 0 to |config.triggers|
      invariant args == head + MapArgs(i)
    {
      args := args + ["-map", "[out" + NatToString(i) + "]"];
    }
    args := args + ["-vsync", "drop", "-f", "rawvideo", "-pix_fmt", "rgb24", "-an", "-y", "pipe:1"];
  }

  /** The crop fractions and the rate contain no `;`, so that they cannot fake a stage boundary. */
  predicate NoStageBreak(rate: string, triggers: seq<Trigger>) {
    ';' !in rate &&
    forall i :: 0 <= i < |triggers| ==>
      var c := triggers[i].crop;
      ';' !in c.widthFrac && ';' !in c.heightFrac && ';' !in c.xFrac && ';' !in c.yFrac
  }

  lemma {:induction false} InLabelsShape(n: nat)
    ensures ';' !in InLabels(n)
    ensures Count(InLabels(n), '[') == n
    decreases n
  {
    if n > 0 {
      InLabelsShape(n - 1);
      var d := NatToString(n - 1);
      DigitsExclude(d, ';');
      DigitsExclude(d, '[');
      var rest := "in" + d + "]";
      assert InLabel(n - 1) == ['['] + rest;
      assert ['['][..0] == [];
      CountNone(rest, '[');
      CountAppend(['['], rest, '[');
      CountAppend(InLabels(n - 1), InLabel(n - 1), '[');
    }
  }

  /**
   * The branch labels come in increasing order: label `i` follows right after
   * labels `0 .. i-1`.
   */
  lemma {:induction false} InLabelsPrefix(n: nat, i: nat)
    requires i < n
    ensures InLabels(i) + InLabel(i) <= InLabels(n)
    decreases n
  {
    if i < n - 1 {
      InLabelsPrefix(n - 1, i);
    }
  }

  lemma {:induction false} CountNone(s: string, c: char)
    requires c !in s
    ensures Count(s, c) == 0
    decreases |s|
  {
    if |s| > 0 {
      var init := s[..|s| - 1];
      assert c !in init by {
        forall x | x in init ensures x != c {
          assert x in s;
        }
      }
      CountNone(init, c);
    }
  }

  /**
   * The split stage fans out to exactly `n` labelled branches, one per trigger,
   * and announces `n` in decimal.
   */
  lemma HeadDeclaresBranches(rate: string, n: nat)
    ensures var head := GraphHead(rate, n);
            var declared := "[0:v]fps=" + rate + ",split=" + NatToString(n);
            ParseDecimal(NatToString(n)) == n &&
            Count(head, '[') == Count("[0:v]fps=" + rate + ",split=", '[') + n &&
            forall i :: 0 <= i < n ==> declared + InLabels(i) + InLabel(i) <= head
  {
    forall i | 0 <= i < n
      ensures "[0:v]fps=" + rate + ",split=" + NatToString(n) + InLabels(i) + InLabel(i) <= GraphHead(rate, n)
    {
      var declared := "[0:v]fps=" + rate + ",split=" + NatToString(n);
      InLabelsPrefix(n, i);
      assert declared + InLabels(i) + InLabel(i) == declared + (InLabels(i) + InLabel(i));
    }
    ParseNatToString(n);
    InLabelsShape(n);
    var d := NatToString(n);
    DigitsExclude(d, '[');
    CountNone(d, '[');
    CountAppend("[0:v]fps=" + rate + ",split=", d, '[');
    CountAppend("[0:v]fps=" + rate + ",split=" + d, InLabels(n), '[');
  }

  lemma SegmentFree(i: nat, c: Crop)
    requires ';' !in c.widthFrac && ';' !in c.heightFrac && ';' !in c.xFrac && ';' !in c.yFrac
    ensures ';' !in CropSegment(i, c)
  {
    DigitsExclude(NatToString(i), ';');
  }

  /**
   * Read back on `;`, the graph is the split stage followed by the crop stages of
   * the triggers in configuration order; there is no empty stage after the last
   * crop (with no triggers the graph still ends in a `;`). Hence the graph holds
   * exactly N semicolons for N >= 1.
   */
  lemma GraphStages(rate: string, triggers: seq<Trigger>)
    requires NoStageBreak(rate, triggers)
    ensures Split(Graph(rate, triggers), ';') ==
              [GraphHead(rate, |triggers|)] + (if |triggers| == 0 then [""] else CropSegments(triggers))
    ensures Count(Graph(rate, triggers), ';') == if |triggers| == 0 then 1 else |triggers|
  {
    var parts := [GraphHead(rate, |triggers|)] + (if |triggers| == 0 then [""] else CropSegments(triggers));
    StagesFree(rate, triggers);
    if |triggers| == 0 {
      SplitJoin(parts, ';');
    } else {
      JoinCons(parts[0], parts[1..], ';');
      SplitJoin(parts, ';');
    }
    CountSplit(Graph(rate, triggers), ';');
  }

  /** No stage of the graph contains a `;`, and the graph is the stages joined by `;`. */
  lemma StagesFree(rate: string, triggers: seq<Trigger>)
    requires NoStageBreak(rate, triggers)
    ensures var parts := [GraphHead(rate, |triggers|)] +
                         (if |triggers| == 0 then [""] else CropSegments(triggers));
            (forall i :: 0 <= i < |parts| ==> ';' !in parts[i]) &&
            (|triggers| > 0 ==> Graph(rate, triggers) == parts[0] + ";" + Join(parts[1..], ';')) &&
            (|triggers| == 0 ==> Graph(rate, triggers) == Join(parts, ';'))
  {
    var n := |triggers|;
    var head := GraphHead(rate, n);
    var segments := CropSegments(triggers);
    InLabelsShape(n);
    DigitsExclude(NatToString(n), ';');
    forall i | 0 <= i < n ensures ';' !in segments[i] {
      SegmentFree(i, triggers[i].crop);
    }
    var parts := [head] + (if n == 0 then [""] else segments);
    if n == 0 {
      assert Join(parts, ';') == Join([head], ';') + ";" + "";
    } else {
      assert parts[1..] == segments;
    }
  }

  /** A crop stage reads the branch of its own index and writes the port of its own index. */
  lemma SegmentPorts(i: nat, c: Crop)
    ensures UpToFirst(CropSegment(i, c), ']') == InLabel(i)
    ensures FromLast(CropSegment(i, c), '[') == OutLabel(i)
  {
    var d := NatToString(i);
    var filter := CropFilter(c);
    DigitsExclude(d, ']');
    DigitsExclude(d, '[');
    AppendAssoc(InLabel(i), filter, OutLabel(i));
    UpToFirstPrepend("[in" + d, ']', filter + OutLabel(i));
    var rest := "out" + d + "]";
    assert OutLabel(i) == ['['] + rest;
    AppendAssoc(InLabel(i) + filter, ['['], rest);
    FromLastAppend(InLabel(i) + filter, '[', rest);
  }

  lemma OutLabelInjective(i: nat, j: nat)
    ensures OutLabel(i) == OutLabel(j) <==> i == j
  {
    if OutLabel(i) == OutLabel(j) {
      var a, b := OutLabel(i), OutLabel(j);
      assert a[4..|a| - 1] == NatToString(i);
      assert b[4..|b| - 1] == NatToString(j);
      NatToStringInjective(i, j);
    }
  }

  lemma {:induction false} MapArgsAt(n: nat, i: nat)
    requires i < n
    ensures MapArgs(n)[2 * i] == "-map" && MapArgs(n)[2 * i + 1] == OutLabel(i)
    decreases n
  {
    if i < n - 1 {
      MapArgsAt(n - 1, i);
    }
  }

  /** The argument list: inputs and graph, `2N` map arguments, then the fixed output format. */
  lemma ArgsLayout(config: HypetriggerConfig)
    ensures var args := CommandArgs(config);
            var n := |config.triggers|;
            |args| == 15 + 2 * n &&
            args[..6] == ["-hwaccel", "auto", "-i", config.inputPath, "-filter_complex",
                          Graph(config.samplesPerSecond, config.triggers)] &&
            args[6 + 2 * n..] == OutputFormatArgs
  {
  }

  /**
   * Port ordering: the `i`-th `-map` argument names the port that the crop stage
   * of trigger `j` writes exactly when `i == j`, and that stage is built from
   * trigger `j`'s own crop fractions and reads branch `j` of the split.
   */
  lemma PortOrdering(config: HypetriggerConfig, i: nat, j: nat)
    requires NoStageBreak(config.samplesPerSecond, config.triggers)
    requires i < |config.triggers| && j < |config.triggers|
    ensures var args := CommandArgs(config);
            var stages := Split(args[5], ';');
            |stages| == |config.triggers| + 1 &&
            stages[j + 1] == CropSegment(j, config.triggers[j].crop) &&
            UpToFirst(stages[j + 1], ']') == InLabel(j) &&
            args[6 + 2 * i] == "-map" &&
            (FromLast(stages[j + 1], '[') == args[7 + 2 * i] <==> i == j)
  {
    GraphStages(config.samplesPerSecond, config.triggers);
    SegmentPorts(j, config.triggers[j].crop);
    MappedPort(config, i);
    OutLabelInjective(i, j);
  }

  lemma MappedPort(config: HypetriggerConfig, i: nat)
    requires i < |config.triggers|
    ensures var args := CommandArgs(config);
            args[5] == Graph(config.samplesPerSecond, config.triggers) &&
            args[6 + 2 * i] == "-map" && args[7 + 2 * i] == OutLabel(i)
  {
    var n := |config.triggers|;
    var head := ["-hwaccel", "auto", "-i", config.inputPath,
                 "-filter_complex", Graph(config.samplesPerSecond, config.triggers)];
    var maps := MapArgs(n);
    MapArgsAt(n, i);
    assert CommandArgs(config) == head + maps + OutputFormatArgs;
    assert (head + maps + OutputFormatArgs)[6 + 2 * i] == maps[2 * i];
    assert (head + maps + OutputFormatArgs)[7 + 2 * i] == maps[2 * i + 1];
  }
}
