/** The generative-AI backend as an oracle: what the bot asks and the
    abstract outcome it gets back. */
module Ai {
  import opened Text

  /** A text request: optional system instruction and the user prompt. */
  datatype Request = Request(systemInstruction: Option<string>, prompt: string)

  /** A text answer, or any failure (network, quota, no text returned). */
  datatype TextResult = TextOk(text: string) | TextErr

  type Bytes = seq<bv8>

  /** Image bytes, or any failure (no image payload returned). */
  datatype ImageResult = ImageOk(data: Bytes) | ImageErr

  /** An image-editing request: the instructions and the source image with
      its MIME type. */
  datatype EditRequest = EditRequest(prompt: string, mimeType: string, image: Bytes)
}
