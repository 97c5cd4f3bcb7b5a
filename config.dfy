// The build script's configuration values, read by every task.

module BuildConfig {

  /** The fields of the imported `config` object that the modelled logic reads.
      Path fragments are concatenated as they are, so `assetsPath` and
      `outputPath` carry their own trailing slash. `localPort` is a Number. */
  datatype Config = Config(
    assetsPath: string,
    outputPath: string,
    cssFolder: string,
    imageFolder: string,
    staticTemplatesFolder: string,
    mainCssFiles: seq<string>,
    cssPreprocessor: seq<string>,
    mainJsFiles: seq<string>,
    localPort: nat)
}
