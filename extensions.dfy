/**
 * The small validators and helpers of `src/utils/extensions.rs`: the
 * inclusive range check on command-line numbers, the sample-rate and file
 * extension checks, the composition of the tidy stage, and the rounding
 * divisions.
 */
module Extensions {
  import opened Ints
  import Tidy
  import Arith

  /** The command-line errors these checks raise. The first two have clap's
      kind `InvalidValue`, the last `ValueValidation`. */
  datatype CliError =
    | UnsupportedExtension
    | OutOfRange(inputName: string, min: int, max: int)
    | SampleRateMismatch

  datatype ErrorKind = InvalidValue | ValueValidation

  function Kind(e: CliError): ErrorKind {
    match e
    case UnsupportedExtension => InvalidValue
    case OutOfRange(_, _, _) => InvalidValue
    case SampleRateMismatch => ValueValidation
  }

  datatype Option<T> = None | Some(value: T)

  datatype Result<T> = Ok(value: T) | Err(error: CliError)

  // ---------------------------------------------------------------------
  // Rounding divisions (specified by their doc comments)

  /** `div_ceil`: the least integer `q` with `q * b >= a`. */
  function DivCeil(a: nat, b: nat): (q: nat)
    requires b > 0
    ensures q * b >= a
    ensures q == 0 || (q - 1) * b < a
  {
    (a + b - 1) / b
  }

  /** `_div_floor`: the greatest integer `q` with `q * b <= a`. */
  function DivFloor(a: nat, b: nat): (q: nat)
    requires b > 0
    ensures q * b <= a < (q + 1) * b
  {
    a / b
  }

  /** A number of the form `q * b` is an exact quotient both ways. */
  lemma DivExact(q: nat, b: nat)
    requires b > 0
    ensures DivCeil(q * b, b) == q && DivFloor(q * b, b) == q
  {
    Arith.DivUnique(q, 0, b);
    Arith.DivUnique(q, b - 1, b);
    assert q * b + b - 1 == q * b + (b - 1);
  }

  /** Ceiling and floor differ by one exactly when the division is inexact. */
  lemma CeilIsFloorPlusRemainder(a: nat, b: nat)
    requires b > 0
    ensures DivCeil(a, b) == DivFloor(a, b) + (if a % b == 0 then 0 else 1)
  {
    var q, r := a / b, a % b;
    assert a == q * b + r;
    if r == 0 {
      Arith.DivUnique(q, b - 1, b);
      assert a + b - 1 == q * b + (b - 1);
    } else {
      Arith.DivUnique(q + 1, r - 1, b);
      assert a + b - 1 == (q + 1) * b + (r - 1);
    }
  }

  // ---------------------------------------------------------------------
  // Command-line number validation

  /** `get_number`: the input passes unchanged when it lies in the inclusive
      range [min, max], and is refused with an error naming the range
      otherwise. */
  function GetNumber(input: int, min: int, max: int, inputName: string): (r: Result<int>)
    ensures r.Ok? <==> min <= input && input <= max
    ensures r.Ok? ==> r.value == input
    ensures r.Err? ==> r.error == OutOfRange(inputName, min, max) && Kind(r.error) == InvalidValue
  {
    if !InclusiveContains(min, max, input) then Err(OutOfRange(inputName, min, max))
    else Ok(input)
  }

  /** `(min..=max).contains(&x)`. */
  predicate InclusiveContains(min: int, max: int, x: int) {
    !(x < min) && !(max < x)
  }

  /** Both ends of the range are accepted. */
  lemma GetNumberAcceptsBounds(min: int, max: int, inputName: string)
    requires min <= max
    ensures GetNumber(min, min, max, inputName) == Ok(min)
    ensures GetNumber(max, min, max, inputName) == Ok(max)
  {
  }

  // ---------------------------------------------------------------------
  // WAV header checks

  /** The fields of `hound::WavSpec` the checks look at. */
  datatype WavSpec = WavSpec(channels: nat, sampleRate: nat, bitsPerSample: nat)

  /** `throw_if_sample_rate_mismatch`: only the sample rates are compared. */
  function ThrowIfSampleRateMismatch(target: WavSpec, paint: WavSpec): (r: Result<()>)
    ensures r.Err? <==> target.sampleRate != paint.sampleRate
    ensures r.Err? ==> r.error == SampleRateMismatch && Kind(r.error) == ValueValidation
  {
    if target.sampleRate != paint.sampleRate then Err(SampleRateMismatch) else Ok(())
  }

  // ---------------------------------------------------------------------
  // File extension check

  /** Index of the last '.' of a file name, if any. */
  function LastDot(name: string): (r: Option<nat>)
    ensures r.None? ==> forall i :: 0 <= i < |name| ==> name[i] != '.'
    ensures r.Some? ==> r.value < |name| && name[r.value] == '.'
    ensures r.Some? ==> forall i :: r.value < i < |name| ==> name[i] != '.'
    decreases |name|
  {
    if name == [] then None
    else if name[|name| - 1] == '.' then Some(|name| - 1)
    else LastDot(name[..|name| - 1])
  }

  /** `Path::extension` of a file name: the text after the last '.', unless
      there is no '.', the only '.' opens the name (a hidden file), or the
      name is "..". */
  function Extension(name: string): Option<string> {
    if name == ".." then None
    else
      match LastDot(name)
      case None => None
      case Some(i) => if i == 0 then None else Some(name[i + 1..])
  }

  /** `verify_file_extension` on the final component of the path: a missing
      extension counts as "" and is refused like any other than "wav". */
  function VerifyFileExtension(name: string): (r: Result<string>)
    ensures r.Ok? ==> r.value == name
    ensures r.Err? ==> r.error == UnsupportedExtension && Kind(r.error) == InvalidValue
  {
    var ext := match Extension(name) case Some(e) => e case None => "";
    if ext != "wav" then Err(UnsupportedExtension) else Ok(name)
  }

  /** A file name passes exactly when it is a non-empty stem followed by
      ".wav"; the comparison is case-sensitive. */
  lemma VerifyFileExtensionAcceptsWavSuffix(name: string)
    ensures VerifyFileExtension(name).Ok? <==> |name| > 4 && name[|name| - 4..] == ".wav"
  {
    var n := |name|;
    if n > 4 && name[n - 4..] == ".wav" {
      assert name[n - 4] == '.' && name[n - 3] == 'w' && name[n - 2] == 'a' && name[n - 1] == 'v';
      assert name != "..";
      var d := LastDot(name);
      assert d.Some? && d.value == n - 4;
      assert name[n - 3..] == "wav";
    }
    if VerifyFileExtension(name).Ok? {
      var i := LastDot(name).value;
      assert name[i + 1..] == "wav";
      assert name[i..] == "." + name[i + 1..];
    }
  }

  lemma VerifyFileExtensionExamples()
    ensures VerifyFileExtension("take.wav").Ok?
    ensures VerifyFileExtension("take").Err?
    ensures VerifyFileExtension(".wav").Err?
    ensures VerifyFileExtension("take.WAV").Err?
  {
    VerifyFileExtensionAcceptsWavSuffix("take.wav");
    VerifyFileExtensionAcceptsWavSuffix("take");
    VerifyFileExtensionAcceptsWavSuffix(".wav");
    VerifyFileExtensionAcceptsWavSuffix("take.WAV");
  }

  // ---------------------------------------------------------------------
  // Tidy composition

  /** `tidy_samples`: flatten to mono, then peak-normalise exactly when asked. */
  method TidySamples(samples: seq<I16>, channels: nat, normalizeSamples: bool,
                     scale: (I16, I16) -> I16, rule: Tidy.PeakRule) returns (out: seq<I16>)
    requires channels < 0x1_0000
    requires channels > 1 ==> |samples| % channels == 0
    ensures normalizeSamples ==> out == Tidy.Normalized(Tidy.Flattened(samples, channels), scale, rule)
    ensures !normalizeSamples ==> out == Tidy.Flattened(samples, channels)
    ensures channels > 1 ==> |out| == |samples| / channels
    ensures channels <= 1 ==> |out| == |samples|
  {
    var flat := Tidy.Flatten(samples, channels);
    if normalizeSamples {
      out := Tidy.Normalize(flat, scale, rule);
    } else {
      out := flat;
    }
  }
}
