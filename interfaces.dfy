/**
 * The record the crawler produces and the job finder stores
 * (app/interfaces/linkedin_job.py). Nothing constrains the fields: in
 * particular none of them is required to be non-empty.
 */
module Interfaces {
  datatype LinkedinJob = LinkedinJob(
    id: string,
    title: string,
    company: string,
    location: string,
    description: string)
}
