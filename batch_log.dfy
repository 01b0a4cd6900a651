/** The error-log entry both batch scripts append when processing a file raises. */
module BatchLog {
  /** `f"Error processing {file}: {e}"`. */
  function ErrorLine(file: string, message: string): (line: string)
    ensures |line| == 19 + |file| + |message| && line[0] == 'E'
  {
    "Error processing " + file + ": " + message
  }

  /** The entry is the prefix, then the file name, then the exception text after ": ". */
  lemma ErrorLineLayout(file: string, message: string)
    ensures var line := ErrorLine(file, message);
      && line[..17] == "Error processing " && line[17..17 + |file|] == file
      && line[17 + |file|..19 + |file|] == ": " && line[19 + |file|..] == message
  {
  }
}
