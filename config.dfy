/** The calculator's options (LipTrackCalculatorOptions) and the output streams
    that the host graph has connected. */
module Config {

  /** Integer options are non-negative; timestamps and both spans are in the same
      integer unit as the input timestamps. */
  datatype Options = Options(
    minSpeakerSpan: int,
    varianceHistory: nat,
    meanHistory: nat,
    lipMeanThresholdBigMouth: real,
    lipVarianceThresholdBigMouth: real,
    lipMeanThresholdSmallMouth: real,
    lipVarianceThresholdSmallMouth: real,
    iouThreshold: real,
    minShotSpan: int,
    outputShotBoundary: bool,
    outputShotBoundaryOnlyOnChange: bool,
    // whether the graph connected the IS_SPEAKER_CHANGE stream
    hasShotStream: bool)
}
