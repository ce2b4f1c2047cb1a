/** The editor's terminal handle, as far as the extension observes it. */
module Host {

  /**
   * A terminal of the editor. The extension compares terminals by identity
   * (`===`), which is reference equality here, and reads only their name.
   */
  class Terminal {
    const name: string

    constructor (name: string)
      ensures this.name == name
    {
      this.name := name;
    }
  }
}
